// The hosted upload quota (src/intake/services/upload_service.py, src/intake/services/upload_validation_service.py).
module UploadQuota {
  import opened Prelude
  import opened QuoteStates

  datatype UploadStatus = UploadAccepted | UploadRejected | UploadDeleted

  datatype Upload = Upload(accountId: string, contentType: string, extension: string, size: nat, status: UploadStatus)

  /** A submitted file; `contentType` is "" when none was sent. */
  datatype File = File(name: string, contentType: string, size: nat)

  datatype Error =
    | QuoteNotFound | NotOwner | EmailUnverified | StatusForbids | TooManyFiles | TotalReached
    | NoFilename | EmptyFile | TooLarge | NoExtension | BadExtension | PdfTooLarge | VideoTooLarge | ImageTooLarge
    | MimeMismatch

  const IMAGE_LIMIT := 15728640
  const PDF_LIMIT := 20971520
  const VIDEO_LIMIT := 157286400
  const GLOBAL_MAX := 157286400
  const MAX_FILES := 20
  const MAX_TOTAL := 524288000

  const ALLOWED_POLICIES: map<string, string> := map[
    ".jpg" := "image/jpeg", ".jpeg" := "image/jpeg", ".png" := "image/png", ".webp" := "image/webp",
    ".heic" := "image/heic", ".mp4" := "video/mp4", ".mov" := "video/quicktime", ".pdf" := "application/pdf"]

  // ---- Validation ------------------------------------------------------------------------------

  /** `Path(filename).name`: the last component that is neither empty nor ".". */
  function FinalName(filename: string): string
    decreases |filename|
  {
    var sep := LastIndex(filename, '/');
    var tail := filename[sep + 1..];
    if tail != "" && tail != "." then tail else if sep < 0 then "" else FinalName(filename[..sep])
  }

  /** `Path(filename).suffix`: a final dot or a leading one makes no suffix. */
  function Suffix(filename: string): string {
    var name := FinalName(filename);
    var dot := LastIndex(name, '.');
    if 0 < dot < |name| - 1 then name[dot..] else ""
  }

  /** `s.split('/')[0]`. */
  function Family(s: string): string {
    if s == "" || s[0] == '/' then "" else [s[0]] + Family(s[1..])
  }

  predicate IsVideo(ext: string) {
    ext == ".mp4" || ext == ".mov"
  }

  predicate IsImage(ext: string) {
    ext == ".jpg" || ext == ".jpeg" || ext == ".png" || ext == ".webp" || ext == ".heic"
  }

  /** `validate_file`: the extension, or why the file is refused. */
  function ValidateFile(f: File): Result<string, Error> {
    if f.name == "" then Err(NoFilename)
    else if f.size == 0 then Err(EmptyFile)
    else if f.size > GLOBAL_MAX then Err(TooLarge)
    else
      var ext := Lower(Suffix(f.name));
      if ext == "" then Err(NoExtension)
      else if ext !in ALLOWED_POLICIES then Err(BadExtension)
      else if ext == ".pdf" && f.size > PDF_LIMIT then Err(PdfTooLarge)
      else if IsVideo(ext) && f.size > VIDEO_LIMIT then Err(VideoTooLarge)
      else if IsImage(ext) && f.size > IMAGE_LIMIT then Err(ImageTooLarge)
      else if f.contentType != "" && f.contentType != ALLOWED_POLICIES[ext]
              && Family(f.contentType) != Family(ALLOWED_POLICIES[ext]) && ext != ".pdf" then Err(MimeMismatch)
      else Ok(ext)
  }

  function CanUpload(status: QuoteStatus, count: nat, total: nat): Option<Error> {
    if !UploadsAllowed(status) then Some(StatusForbids)
    else if count >= MAX_FILES then Some(TooManyFiles)
    else if total >= MAX_TOTAL then Some(TotalReached)
    else None
  }

  /** The bytes of the accepted uploads. */
  function AcceptedBytes(uploads: seq<Upload>): nat {
    if uploads == [] then 0
    else AcceptedBytes(uploads[..|uploads| - 1]) +
         if uploads[|uploads| - 1].status == UploadAccepted then uploads[|uploads| - 1].size else 0
  }

  // ---- handle_upload -------------------------------------------------------------------------------

  type Store = map<string, seq<Upload>>

  function Of(store: Store, quoteId: string): seq<Upload> {
    if quoteId in store then store[quoteId] else []
  }

  function Check(store: Store, db: Lookup, accountId: string, quoteId: string, f: File): Result<string, Error> {
    if quoteId !in db.quotes then Err(QuoteNotFound)
    else if db.quotes[quoteId].accountId != Some(accountId) then Err(NotOwner)
    else if db.requireVerified && !(accountId in db.accounts && db.accounts[accountId]) then Err(EmailUnverified)
    else
      match CanUpload(db.quotes[quoteId].status, |Of(store, quoteId)|, AcceptedBytes(Of(store, quoteId)))
      case Some(e) => Err(e)
      case None => ValidateFile(f)
  }

  function Handle(
    store: Store, db: Lookup, accountId: string, quoteId: string, f: File): (Store, Result<Upload, Error>) {
    match Check(store, db, accountId, quoteId, f)
    case Err(e) => (store, Err(e))
    case Ok(ext) =>
      var contentType := if f.contentType == "" then "application/octet-stream" else f.contentType;
      var upload := Upload(accountId, contentType, ext, f.size, UploadAccepted);
      (store[quoteId := Of(store, quoteId) + [upload]], Ok(upload))
  }

  class UploadService {
    var store: Store

    constructor ()
      ensures store == map[]
    {
      store := map[];
    }

    method HandleUpload(db: Lookup, accountId: string, quoteId: string, f: File) returns (res: Result<Upload, Error>)
      modifies this
      ensures (store, res) == Handle(old(store), db, accountId, quoteId, f)
    {
      hide ValidateFile, AcceptedBytes;
      if quoteId !in db.quotes { return Err(QuoteNotFound); }
      var quote := db.quotes[quoteId];
      if quote.accountId != Some(accountId) { return Err(NotOwner); }
      if db.requireVerified {
        if accountId !in db.accounts || !db.accounts[accountId] { return Err(EmailUnverified); }
      }
      var uploads := Of(store, quoteId);
      var totalBytes := AcceptedBytes(uploads);
      var refused := CanUpload(quote.status, |uploads|, totalBytes);
      if refused.Some? { return Err(refused.value); }
      var valid := ValidateFile(f);
      if valid.Err? { return Err(valid.error); }
      var contentType := if f.contentType != "" then f.contentType else "application/octet-stream";
      var upload := Upload(accountId, contentType, valid.value, f.size, UploadAccepted);
      AddUpload(quoteId, upload);
      return Ok(upload);
    }

    method AddUpload(quoteId: string, upload: Upload)
      modifies this
      ensures store == old(store)[quoteId := Of(old(store), quoteId) + [upload]]
    {
      store := store[quoteId := Of(store, quoteId) + [upload]];
    }
  }

  // ---- What is accepted -------------------------------------------------------------------------------

  /** The largest file of an extension. */
  function Limit(ext: string): nat {
    if ext == ".pdf" then PDF_LIMIT else if IsVideo(ext) then VIDEO_LIMIT else IMAGE_LIMIT
  }

  predicate MimeAgrees(ext: string, contentType: string)
    requires ext in ALLOWED_POLICIES
  {
    contentType == "" || ext == ".pdf" || Family(contentType) == Family(ALLOWED_POLICIES[ext])
  }

  /** A file passes exactly when its extension is listed, its size is positive and within that extension's limit, and a
      declared type is of the listed family (any type will do for a PDF). */
  lemma ValidExactly(f: File)
    ensures var ext := Lower(Suffix(f.name));
            ValidateFile(f) == Ok(ext) <==>
                ext in ALLOWED_POLICIES && 0 < f.size <= Limit(ext) && MimeAgrees(ext, f.contentType)
    ensures ValidateFile(f).Ok? ==> ValidateFile(f) == Ok(Lower(Suffix(f.name)))
  {
    hide Family;
    if f.name == "" { assert Suffix(f.name) == "" && Lower("") == ""; }
    var ext := Lower(Suffix(f.name));
    if ext in ALLOWED_POLICIES { ListedKinds(ext); }
  }

  lemma ListedKinds(ext: string)
    requires ext in ALLOWED_POLICIES
    ensures ext == ".pdf" || IsVideo(ext) || IsImage(ext)
    ensures ext != ""
  {
  }

  // ---- Runs -----------------------------------------------------------------------------------------------

  datatype Request = Request(db: Lookup, accountId: string, quoteId: string, file: File)

  function Run(reqs: seq<Request>): Store {
    if reqs == [] then map[]
    else
      var r := reqs[|reqs| - 1];
      Handle(Run(reqs[..|reqs| - 1]), r.db, r.accountId, r.quoteId, r.file).0
  }

  /** Within the quota: the last accepted file may carry the total past `MAX_TOTAL`. */
  predicate Within(uploads: seq<Upload>) {
    && |uploads| <= MAX_FILES
    && AcceptedBytes(uploads) <= MAX_TOTAL - 1 + GLOBAL_MAX
    && forall u :: u in uploads ==>
        u.status == UploadAccepted && u.extension in ALLOWED_POLICIES && 0 < u.size <= Limit(u.extension)
  }

  lemma HandleKeeps(store: Store, r: Request, quoteId: string)
    requires Within(Of(store, quoteId))
    ensures Within(Of(Handle(store, r.db, r.accountId, r.quoteId, r.file).0, quoteId))
  {
    hide ValidateFile, Limit;
    ValidExactly(r.file);
    LimitsBelowGlobal();
    var out := Handle(store, r.db, r.accountId, r.quoteId, r.file);
    var before := Of(store, r.quoteId);
    if out.1.Ok? && r.quoteId == quoteId {
      assert (before + [out.1.value])[..|before|] == before;
    }
  }

  lemma LimitsBelowGlobal()
    ensures forall ext :: Limit(ext) <= GLOBAL_MAX
  {
  }

  /** From no uploads, every run keeps each quote within 20 files and 681574399 bytes, each file within its own
      limit. */
  lemma {:induction false} QuotaHolds(reqs: seq<Request>, quoteId: string)
    ensures Within(Of(Run(reqs), quoteId))
    ensures |Of(Run(reqs), quoteId)| <= 20 && AcceptedBytes(Of(Run(reqs), quoteId)) <= 681574399
  {
    hide Handle, Limit;
    if reqs != [] {
      QuotaHolds(reqs[..|reqs| - 1], quoteId);
      HandleKeeps(Run(reqs[..|reqs| - 1]), reqs[|reqs| - 1], quoteId);
    }
  }

  /** Once a quote has 20 files or its total has reached the limit, its uploads never change again. */
  lemma {:induction false} FullStaysFull(reqs: seq<Request>, i: nat, quoteId: string)
    requires i <= |reqs|
    requires var uploads := Of(Run(reqs[..i]), quoteId); |uploads| >= MAX_FILES || AcceptedBytes(uploads) >= MAX_TOTAL
    ensures Of(Run(reqs), quoteId) == Of(Run(reqs[..i]), quoteId)
  {
    hide ValidateFile, AcceptedBytes;
    if i == |reqs| {
      assert reqs[..i] == reqs;
    } else {
      var init := reqs[..|reqs| - 1];
      assert init[..i] == reqs[..i];
      FullStaysFull(init, i, quoteId);
    }
  }

  // ---- The bound is attained --------------------------------------------------------------------------------

  const WITNESS_DB := Lookup(map["q" := QuoteRow(Some("a"), Draft)], map[], false)

  function Video(size: nat): Request {
    Request(WITNESS_DB, "a", "q", File("v.mp4", "", size))
  }

  /** Four files one byte short of the limit, and then the largest video. */
  const WITNESS: seq<Request> := [Video(157286400), Video(157286400), Video(157286400), Video(52428799),
    Video(157286400)]

  lemma {:induction false} LastIndexAbsent(s: string, c: char)
    requires c !in s
    ensures LastIndex(s, c) == -1
  {
    if s != "" { LastIndexAbsent(s[..|s| - 1], c); }
  }

  lemma VideoSuffix()
    ensures Lower(Suffix("v.mp4")) == ".mp4"
  {
    var name := "v.mp4";
    assert name[..4] == "v.mp" && name[..3] == "v.m" && name[..2] == "v." && name[..1] == "v";
    LastIndexAbsent(name, '/');
    assert FinalName(name) == name;
    assert LastIndex("v.", '.') == 1 && LastIndex("v.m", '.') == 1 && LastIndex("v.mp", '.') == 1;
    assert LastIndex(name, '.') == 1;
    hide LastIndex, FinalName, Lower;
    assert Suffix(name) == ".mp4";
    LowerMp4();
  }

  lemma LowerMp4()
    ensures Lower(".mp4") == ".mp4"
  {
  }

  lemma VideoAccepted(store: Store, size: nat)
    requires 0 < size <= 157286400 && |Of(store, "q")| < 20 && AcceptedBytes(Of(store, "q")) < 524288000
    ensures var r := Video(size);
            var after := Handle(store, r.db, r.accountId, r.quoteId, r.file).0;
            && |Of(after, "q")| == |Of(store, "q")| + 1
            && AcceptedBytes(Of(after, "q")) == AcceptedBytes(Of(store, "q")) + size
  {
    hide ValidateFile, Suffix, Lower;
    VideoSuffix();
    VideoValid(size);
    var r := Video(size);
    var out := Handle(store, r.db, r.accountId, r.quoteId, r.file);
    assert out.1.Ok?;
    var before := Of(store, "q");
    assert (before + [out.1.value])[..|before|] == before;
  }

  lemma VideoValid(size: nat)
    requires 0 < size <= 157286400
    ensures ValidateFile(File("v.mp4", "", size)) == Ok(".mp4")
  {
    VideoSuffix();
    ValidExactly(File("v.mp4", "", size));
    hide Suffix, ValidateFile, Lower;
    assert ".mp4" in ALLOWED_POLICIES && Limit(".mp4") == 157286400;
  }

  lemma {:induction false} WitnessPrefix(k: nat)
    requires k <= 5
    ensures |Of(Run(WITNESS[..k]), "q")| == k
    ensures AcceptedBytes(Of(Run(WITNESS[..k]), "q")) ==
            if k <= 3 then k * 157286400 else if k == 4 then 524287999 else 681574399
  {
    hide Handle;
    if k > 0 {
      WitnessPrefix(k - 1);
      assert WITNESS[..k][..k - 1] == WITNESS[..k - 1];
      VideoAccepted(Run(WITNESS[..k - 1]), WITNESS[k - 1].file.size);
    }
  }

  /** The bound cannot be lowered. */
  lemma QuotaIsTight()
    ensures AcceptedBytes(Of(Run(WITNESS), "q")) == 681574399
  {
    WitnessPrefix(5);
    assert WITNESS[..5] == WITNESS;
  }
}
