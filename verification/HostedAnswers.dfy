// What the answers of the hosted services mean: quotes, device actions and uploads
// (src/intake/services/quote_service.py, src/intake/hosted/api/sync.py, src/intake/services/upload_service.py,
// src/intake/services/upload_validation_service.py).
module HostedAnswers {
  import opened Prelude
  import opened PyJson
  import opened QuoteStates
  import ActionAnswers
  import ActionEnvelope
  import ActionVerification
  import Quotes = QuoteLog
  import Sync = SyncApi
  import Quota = UploadQuota

  /** The aggregate type of quotes. */
  const QUOTE: PyStr := ActionEnvelope.Py("quote")

  // ---- Quotes --------------------------------------------------------------------------------

  /** A submission goes through exactly for a stored draft with a service lane, and where verification is required
      only with a verified account. It leaves the quote waiting for review and logs both steps; else nothing
      changes. */
  lemma SubmitExactly(s: Quotes.State, id: PyStr, account: PyStr, required: bool, verified: Option<bool>)
    ensures var u := Quotes.Submitting(s, id, account, required, verified);
            if id in s.quotes && s.quotes[id].status == Draft && s.quotes[id].lane != None
               && (!required || verified == Some(true))
            then
              && u.quotes == s.quotes[id := s.quotes[id].(status := NeedsReview)]
              && u.log == s.log + [Quotes.Event(id, Quotes.QuoteSubmitted), Quotes.Event(id, Quotes.QuoteNeedsReview)]
            else u == s
  {
    Quotes.SubmitStoresStatusOnly(s, id, account, required, verified);
  }

  /** Each edit of a stored quote sets the fields it is given and no other, and logs what it added; an edit of an
      unknown quote does nothing. */
  lemma EditExactly(s: Quotes.State, id: PyStr, e: Quotes.Edit)
    ensures var u := Quotes.ApplyEdit(s, id, e);
            if id !in s.quotes then u == s
            else
              var q := s.quotes[id];
              match e
              case SetLane(lane) => u == s.(quotes := s.quotes[id := q.(lane := Some(lane))])
              case SetInfo(info) => u == s.(quotes := s.quotes[id := q.(info := info)])
              case SetLocation(area, location) =>
                && u.quotes == s.quotes[id := q.(area := area, location := Some(location))]
                && u.log == s.log + [Quotes.Event(id, Quotes.LocationAdded)]
              case SetNotes(notes) =>
                && u.quotes == s.quotes[id := q.(notes := Some(notes))]
                && u.log == s.log + [Quotes.Event(id, Quotes.AnswersAdded)]
              case SetQuestionnaire(answers) =>
                && u.quotes == s.quotes[id := q.(questionnaire := Some(answers))]
                && u.log == s.log + [Quotes.Event(id, Quotes.AnswersAdded)]
  {
    if id in s.quotes { Quotes.EditIsStoredWhole(s, id, e); }
  }

  /** When a review start is refused, and when it goes through. */
  predicate ReviewWarranted(
    s: Quotes.State, aggregateType: PyStr, id: PyStr, answer: Result<QuoteStatus, Quotes.ReviewError>)
  {
    var ofQuote := aggregateType == QUOTE;
    var waiting := ofQuote && id in s.quotes && s.quotes[id].status in {Submitted, NeedsReview};
    match answer
    case Err(WrongAggregate) => !ofQuote
    case Err(QuoteNotFound) => ofQuote && id !in s.quotes
    case Err(WrongStatus(status)) => ofQuote && id in s.quotes && s.quotes[id].status == status && !waiting
    case Ok(previous) => waiting && s.quotes[id].status == previous
  }

  /** A review starts exactly for a submitted or waiting quote; it then is under review and the log says so. */
  lemma ReviewExactly(
    s: Quotes.State, aggregateType: PyStr, id: PyStr, answer: Result<QuoteStatus, Quotes.ReviewError>)
    ensures var (u, r) := Quotes.StartReview(s, aggregateType, id);
            && (r == answer <==> ReviewWarranted(s, aggregateType, id, answer))
            && (if r.Ok? then
                  && u.quotes == s.quotes[id := s.quotes[id].(status := Reviewing)]
                  && u.log == s.log + [Quotes.Event(id, Quotes.QuoteReviewStarted)]
                else u == s)
  {
    hide ActionEnvelope.Py;
  }

  /** A quote is created exactly under a new id, as a draft without owner and with the given lane. */
  lemma CreationExactly(s: Quotes.State, id: PyStr, lane: Option<Quotes.Lane>)
    ensures var u := Quotes.Created(s, id, lane);
            if id in s.quotes then u == s
            else
              && id in u.quotes && u.quotes == s.quotes[id := u.quotes[id]]
              && u.quotes[id].status == Draft && u.quotes[id].accountId == None && u.quotes[id].lane == lane
              && u.log == s.log + [Quotes.Event(id, Quotes.QuoteCreated)]
  {
  }

  // ---- Device actions ----------------------------------------------------------------------------

  /** An action starts a review exactly when its device is registered, the action is warranted, it asks for a
      review start of a quote, and that quote is waiting. */
  lemma ActionStartsExactly(
    cfg: ActionVerification.Config, devices: Sync.Registry, h: Sync.Host, e: ActionEnvelope.Envelope, now: int)
    ensures var r := Sync.Process(cfg, devices, h, e, now).1;
            && (r.Ok? <==>
                  && e.deviceId in devices
                  && ActionAnswers.Warranted(cfg, h.tables, e, devices[e.deviceId], now, ActionVerification.Accepted)
                  && e.actionKind == Sync.REVIEW_START
                  && cfg.lower(e.aggregateType) == QUOTE
                  && e.aggregateId in h.quotes.quotes
                  && h.quotes.quotes[e.aggregateId].status in {Submitted, NeedsReview})
            && (r == Err(Sync.DeviceNotRegistered) <==> e.deviceId !in devices)
            && (r == Err(Sync.UnsupportedKind) <==>
                  && e.deviceId in devices
                  && ActionAnswers.Warranted(cfg, h.tables, e, devices[e.deviceId], now, ActionVerification.Accepted)
                  && e.actionKind != Sync.REVIEW_START)
            && (forall why :: r == Err(Sync.VerificationFailed(why)) <==>
                  && e.deviceId in devices
                  && ActionAnswers.Warranted(
                       cfg, h.tables, e, devices[e.deviceId], now, ActionVerification.Refused(why)))
  {
    hide ActionVerification.VerifyAlone, ActionAnswers.Warranted, Quotes.StartReview, ActionEnvelope.Py;
    if e.deviceId in devices {
      var d := devices[e.deviceId];
      forall answer ensures ActionVerification.VerifyAlone(cfg, h.tables, e, d, now).1 == answer <==>
                            ActionAnswers.Warranted(cfg, h.tables, e, d, now, answer)
      {
        ActionAnswers.AnswerExactly(cfg, h.tables, e, d, now, answer);
      }
      ReviewStarts(h.quotes, cfg.lower(e.aggregateType), e.aggregateId);
    }
  }

  lemma ReviewStarts(s: Quotes.State, aggregateType: PyStr, id: PyStr)
    ensures Quotes.StartReview(s, aggregateType, id).1.Ok? <==>
            aggregateType == QUOTE && id in s.quotes && s.quotes[id].status in {Submitted, NeedsReview}
  {
    hide ActionEnvelope.Py;
  }

  // ---- Uploads -------------------------------------------------------------------------------------

  /** When an upload is refused before its file is looked at. */
  predicate EntryWarranted(
    store: Quota.Store, db: Lookup, accountId: string, quoteId: string, refusal: Option<Quota.Error>)
  {
    var uploads := Quota.Of(store, quoteId);
    var owned := quoteId in db.quotes && db.quotes[quoteId].accountId == Some(accountId);
    var verified := owned && (db.requireVerified ==> accountId in db.accounts && db.accounts[accountId]);
    var taking := verified && db.quotes[quoteId].status in {Draft, Submitted, NeedsReview, Reviewing};
    match refusal
    case Some(QuoteNotFound) => quoteId !in db.quotes
    case Some(NotOwner) => quoteId in db.quotes && !owned
    case Some(EmailUnverified) => owned && !verified
    case Some(StatusForbids) => verified && !taking
    case Some(TooManyFiles) => taking && |uploads| >= 20
    case Some(TotalReached) => taking && |uploads| < 20 && Quota.AcceptedBytes(uploads) >= 524288000
    case Some(_) => false
    case None => taking && |uploads| < 20 && Quota.AcceptedBytes(uploads) < 524288000
  }

  predicate Video(ext: string) {
    ext in {".mp4", ".mov"}
  }

  predicate Image(ext: string) {
    ext in {".jpg", ".jpeg", ".png", ".webp", ".heic"}
  }

  /** A declared type in the extension's own family, or none; for a PDF any type. */
  predicate TypeFits(ext: string, contentType: string) {
    || contentType == "" || ext == ".pdf"
    || StartsFamily(contentType, if Video(ext) then "video" else "image")
  }

  /** `family` is all of the text up to its first slash. */
  predicate StartsFamily(s: string, family: string) {
    '/' !in family && (s == family || StartsWith(s, family + "/"))
  }

  /** The largest file of an extension: 20 MB, 150 MB, 15 MB. */
  function SizeLimit(ext: string): nat {
    if ext == ".pdf" then 20971520 else if Video(ext) then 157286400 else 15728640
  }

  /** When a file is refused, check by check, and when it passes. */
  predicate FileWarranted(f: Quota.File, refusal: Option<Quota.Error>) {
    var ext := Lower(Quota.Suffix(f.name));
    var sized := f.name != "" && 0 < f.size <= 157286400;
    var known := sized && (Image(ext) || Video(ext) || ext == ".pdf");
    match refusal
    case Some(NoFilename) => f.name == ""
    case Some(EmptyFile) => f.name != "" && f.size == 0
    case Some(TooLarge) => f.name != "" && f.size > 157286400
    case Some(NoExtension) => sized && ext == ""
    case Some(BadExtension) => sized && ext != "" && !known
    case Some(PdfTooLarge) => known && ext == ".pdf" && f.size > 20971520
    case Some(ImageTooLarge) => known && Image(ext) && f.size > 15728640
    case Some(MimeMismatch) => known && f.size <= SizeLimit(ext) && !TypeFits(ext, f.contentType)
    case Some(_) => false
    case None => known && f.size <= SizeLimit(ext) && TypeFits(ext, f.contentType)
  }

  lemma {:induction false} FamilyExact(s: string, family: string)
    ensures Quota.Family(s) == family <==> StartsFamily(s, family)
  {
    if s != "" && s[0] != '/' {
      if family != "" {
        FamilyExact(s[1..], family[1..]);
        assert s == [s[0]] + s[1..] && family == [family[0]] + family[1..];
        FamilyStep(s, family);
      }
    } else if s != "" {
      assert StartsWith(s, "/") by { assert s[..1] == [s[0]]; }
      assert "" + "/" == "/";
      if family != "" { assert (family + "/")[0] == family[0]; }
    }
  }

  lemma FamilyStep(s: string, family: string)
    requires s != "" && s[0] != '/' && family != ""
    ensures StartsFamily(s, family) <==> s[0] == family[0] && StartsFamily(s[1..], family[1..])
  {
    var p := family + "/";
    assert p[1..] == family[1..] + "/" && p[0] == family[0];
    assert s == [s[0]] + s[1..] && family == [family[0]] + family[1..];
    if |p| <= |s| {
      assert s[..|p|][0] == s[0] && s[..|p|][1..] == s[1..][..|p| - 1];
      assert s[..|p|] == [s[0]] + s[1..][..|p| - 1] && p == [p[0]] + p[1..];
    }
  }

  /** Every refusal of a file is given exactly when it is warranted; a video cannot be too large for its own
      limit, since that is the limit of all files. */
  lemma FileExactly(f: Quota.File, refusal: Option<Quota.Error>)
    ensures var r := Quota.ValidateFile(f);
            && (refusal == (if r.Err? then Some(r.error) else None) <==> FileWarranted(f, refusal))
            && (r.Ok? ==> r.value == Lower(Quota.Suffix(f.name)))
  {
    hide Quota.Suffix, Lower, Quota.Family, StartsFamily;
    var ext := Lower(Quota.Suffix(f.name));
    FamilyExact(f.contentType, "video");
    FamilyExact(f.contentType, "image");
    PolicyTable(ext);
  }

  lemma PolicyTable(ext: string)
    ensures ext in Quota.ALLOWED_POLICIES <==> Image(ext) || Video(ext) || ext == ".pdf"
    ensures Image(ext) ==> Quota.Family(Quota.ALLOWED_POLICIES[ext]) == "image" && !Video(ext) && ext != ".pdf"
    ensures Video(ext) ==> Quota.Family(Quota.ALLOWED_POLICIES[ext]) == "video" && ext != ".pdf"
  {
    hide Quota.Family;
    FamilyOf("image", "jpeg");
    FamilyOf("image", "png");
    FamilyOf("image", "webp");
    FamilyOf("image", "heic");
    FamilyOf("video", "mp4");
    FamilyOf("video", "quicktime");
    assert "image" + "/" + "jpeg" == "image/jpeg" && "image" + "/" + "png" == "image/png";
    assert "image" + "/" + "webp" == "image/webp" && "image" + "/" + "heic" == "image/heic";
    assert "video" + "/" + "mp4" == "video/mp4" && "video" + "/" + "quicktime" == "video/quicktime";
  }

  lemma FamilyOf(family: string, rest: string)
    requires '/' !in family
    ensures Quota.Family(family + "/" + rest) == family
  {
    var s := family + "/" + rest;
    assert s[..|family| + 1] == family + "/";
    FamilyExact(s, family);
  }

  /** An upload is taken exactly from the quote's owner, verified where that is required, while the quote takes uploads
      and has fewer than 20 files and less than 500 MB, and when its file passes; every refusal is given exactly when it
      is warranted. What is stored is appended to this quote's uploads, with the file's own size and extension. */
  lemma UploadExactly(store: Quota.Store, db: Lookup, accountId: string, quoteId: string, f: Quota.File)
    ensures var (store', r) := Quota.Handle(store, db, accountId, quoteId, f);
            var entered := EntryWarranted(store, db, accountId, quoteId, None);
            && (r.Ok? <==> entered && FileWarranted(f, None))
            && (forall e :: r == Err(e) <==>
                  EntryWarranted(store, db, accountId, quoteId, Some(e)) || (entered && FileWarranted(f, Some(e))))
            && (r.Err? ==> store' == store)
            && (r.Ok? ==>
                  && store' == store[quoteId := Quota.Of(store, quoteId) + [r.value]]
                  && r.value.accountId == accountId && r.value.size == f.size
                  && r.value.extension == Lower(Quota.Suffix(f.name)) && r.value.status == Quota.UploadAccepted
                  && r.value.contentType == if f.contentType == "" then "application/octet-stream" else f.contentType)
  {
    hide Quota.AcceptedBytes, Quota.ValidateFile, FileWarranted;
    forall refusal
      ensures var r := Quota.ValidateFile(f);
              && (refusal == (if r.Err? then Some(r.error) else None) <==> FileWarranted(f, refusal))
              && (r.Ok? ==> r.value == Lower(Quota.Suffix(f.name)))
    {
      FileExactly(f, refusal);
    }
  }

  /** Of a filename's final component the suffix is what starts at its last dot, unless that dot is its first or last
      character. */
  predicate HasSuffix(name: string, ext: string) {
    && 1 < |ext| < |name| && name[|name| - |ext|..] == ext && ext[0] == '.' && '.' !in ext[1..]
  }

  lemma {:induction false} LastDot(s: string, c: char)
    ensures LastIndex(s, c) == -1 <==> c !in s
    ensures LastIndex(s, c) >= 0 ==> s[LastIndex(s, c)] == c
    ensures forall i :: LastIndex(s, c) < i < |s| ==> s[i] != c
  {
    if s != [] {
      LastDot(s[..|s| - 1], c);
      assert s == s[..|s| - 1] + [s[|s| - 1]];
    }
  }

  lemma SuffixExact(f: string, ext: string)
    ensures ext != "" && Quota.Suffix(f) == ext <==> HasSuffix(Quota.FinalName(f), ext)
  {
    hide LastIndex, Quota.FinalName;
    var name := Quota.FinalName(f);
    LastDot(name, '.');
    var dot := LastIndex(name, '.');
    if HasSuffix(name, ext) {
      var n := |name| - |ext|;
      assert name[n] == '.';
      forall i | n < i < |name| ensures name[i] != '.' { assert name[i] == ext[1..][i - n - 1]; }
      assert dot == n;
    }
    if ext != "" && Quota.Suffix(f) == ext {
      forall i | 1 <= i < |ext| ensures ext[i] != '.' { assert ext[i] == name[dot + i]; }
    }
  }

  /** The final component: what follows the last slash, or the component before it where that is empty or ".". */
  lemma FinalNameExact(folder: string, name: string)
    requires '/' !in name
    ensures name != "" && name != "." ==> Quota.FinalName(name) == name && Quota.FinalName(folder + "/" + name) == name
    ensures name == "" || name == "." ==>
              Quota.FinalName(name) == "" && Quota.FinalName(folder + "/" + name) == Quota.FinalName(folder)
  {
    hide LastIndex;
    LastDot(name, '/');
    var f := folder + "/" + name;
    LastDot(f, '/');
    assert f[|folder|] == '/';
    forall i | |folder| < i < |f| ensures f[i] != '/' { assert f[i] == name[i - |folder| - 1]; }
    assert LastIndex(f, '/') == |folder| && f[|folder| + 1..] == name && f[..|folder|] == folder;
    assert name[0..] == name;
  }
}
