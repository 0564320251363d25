/** The public verification page (src/app/page.tsx): the identifier typed into the box,
    scanned from a QR code or passed as `?c=` in the address is normalised, refused when
    blank, looked up, and written back to the address on success. */
module VerifyPage {
  import opened Text
  import opened CertificateId
  import opened CertificateStore

  // ---------------------------------------------------------------- the input box

  const DoublePrefix: string := "RMMO-RMMO-"

  /** `replace("RMMO-RMMO-", "RMMO-")` on a value that starts with the doubled prefix drops one prefix. */
  lemma DoubledDrops(u: string)
    requires StartsWith(u, DoublePrefix) && IsUpper(u)
    ensures ReplaceFirst(u, DoublePrefix, Prefix) == u[|Prefix|..]
    ensures StartsWith(u[|Prefix|..], Prefix) && IsUpper(u[|Prefix|..])
  {
    StartsWithIndex(u, DoublePrefix);
    assert u[..|DoublePrefix|] == DoublePrefix;
    assert u[|Prefix|..|DoublePrefix|] == Prefix;
    assert u[|Prefix|..] == u[|Prefix|..|DoublePrefix|] + u[|DoublePrefix|..];
    assert u[|Prefix|..][..|Prefix|] == u[|Prefix|..|DoublePrefix|];
    UpperSlice(u, |Prefix|, |u|);
  }

  /** The box's new value in `handleInputChange`: upper-cased; a leading doubled prefix loses
      one prefix, and a value that does not start with `RMMO-` is reset to `RMMO-`. */
  function InputValue(typed: string): (r: string)
    ensures StartsWith(r, Prefix) && IsUpper(r)
    ensures StartsWith(Upper(typed), DoublePrefix) ==> r == Upper(typed)[|Prefix|..]
    ensures StartsWith(Upper(typed), Prefix) && !StartsWith(Upper(typed), DoublePrefix) ==> r == Upper(typed)
    ensures !StartsWith(Upper(typed), Prefix) ==> r == Prefix
  {
    var value := Upper(typed);
    UpperIsUpper(typed);
    if StartsWith(value, DoublePrefix) then
      DoubledDrops(value);
      ReplaceFirst(value, DoublePrefix, Prefix)
    else if !StartsWith(value, Prefix) then Prefix
    else value
  }

  /** Pasting a whole number after the `RMMO-` already in the box leaves just that number. */
  lemma PastedIdCollapses(id: string)
    requires StartsWith(id, Prefix) && IsUpper(id)
    ensures InputValue(Prefix + id) == id
  {
    UpperAppend(Prefix, id);
    UpperOfUpper(id);
    assert Upper(Prefix) == Prefix;
    assert (Prefix + id)[..|DoublePrefix|] == Prefix + id[..|Prefix|];
    PrefixThen(Prefix, id);
  }

  /** The rule on a value that is already upper-case. */
  lemma InputValueOfUpper(v: string)
    requires IsUpper(v)
    ensures InputValue(v) == if StartsWith(v, DoublePrefix) then v[|Prefix|..]
                             else if StartsWith(v, Prefix) then v else Prefix
  {
    UpperOfUpper(v);
  }

  /** After one prefix is dropped from a doubled prefix, the rest is doubled again exactly
      when the value started with three prefixes. */
  lemma TripledAfterDrop(u: string)
    requires StartsWith(u, DoublePrefix)
    ensures StartsWith(u[|Prefix|..], Prefix)
    ensures StartsWith(u[|Prefix|..], DoublePrefix) <==> StartsWith(u, Prefix + DoublePrefix)
  {
    assert u[|Prefix|..][..|Prefix|] == u[|Prefix|..|DoublePrefix|];
    if StartsWith(u, Prefix + DoublePrefix) {
      assert u[|Prefix|..][..|DoublePrefix|] == u[|Prefix|..|Prefix + DoublePrefix|];
    }
    if StartsWith(u[|Prefix|..], DoublePrefix) {
      assert u[..|Prefix + DoublePrefix|] == u[..|Prefix|] + u[|Prefix|..][..|DoublePrefix|];
    }
  }

  /** Three prefixes include two. */
  lemma TripledIsDoubled(u: string)
    requires StartsWith(u, Prefix + DoublePrefix)
    ensures StartsWith(u, DoublePrefix)
  {
    assert u[..|DoublePrefix|] == (Prefix + DoublePrefix)[..|DoublePrefix|];
  }

  /** Running the rule on its own output changes nothing, except after a tripled prefix,
      which the rule shortens by one prefix at a time. */
  lemma {:induction false} InputValueSettles(typed: string)
    ensures InputValue(InputValue(typed)) == InputValue(typed)
        <==> !StartsWith(Upper(typed), Prefix + DoublePrefix)
  {
    var u := Upper(typed);
    var r := InputValue(typed);
    InputValueOfUpper(r);
    if StartsWith(u, DoublePrefix) {
      TripledAfterDrop(u);
      assert |r| == |u| - |Prefix|;
    } else if StartsWith(u, Prefix + DoublePrefix) {
      TripledIsDoubled(u);
    } else if !StartsWith(u, Prefix) {
      assert !StartsWith(Prefix, DoublePrefix);
    }
  }

  // ---------------------------------------------------------------- the refusal

  /** `autoVerify` refuses an empty identifier and one that trims to the bare prefix. */
  predicate Refused(id: string) {
    id == "" || Trim(id) == Prefix
  }

  /** The box after a reset, or after an edit that broke the prefix, holds a refused value. */
  lemma BarePrefixRefused(typed: string)
    requires !StartsWith(Upper(typed), Prefix)
    ensures InputValue(typed) == Prefix && Refused(InputValue(typed))
  {
    TrimNoop(Prefix);
  }

  /** A number in stored form that is longer than the prefix is never refused. */
  lemma StoredNumberAccepted(id: string)
    requires StoredNumber(id) && |id| > |Prefix|
    ensures !Refused(id)
  {
    PrefixedHead(id);
    TrimNoop(id);
  }

  // ---------------------------------------------------------------- scanned text

  /** What the `URL` constructor makes of the scanned text: `Invalid` when it throws, otherwise
      the `c` search parameter (`None` for null) and the path name. */
  datatype UrlParse = Invalid | Parsed(c: Option<string>, pathname: string)

  /** `pathname.split("/").pop()`. */
  function LastSegment(path: string): string {
    var parts := Split(path, '/');
    parts[|parts| - 1]
  }

  /** `extractedId` in `processDecodedText`: text that starts with `http` (looked at before any
      trim) is read as a link, giving its `c` parameter, else its last path segment, else the
      whole text, and the whole text when it is no link; any other text is trimmed. */
  function ExtractedId(decoded: string, url: UrlParse): (r: string)
    ensures !StartsWith(decoded, "http") ==> r == Trim(decoded)
    ensures StartsWith(decoded, "http") && url.Invalid? ==> r == decoded
    ensures StartsWith(decoded, "http") && url.Parsed? && url.c.Some? && url.c.value != "" ==> r == url.c.value
    ensures StartsWith(decoded, "http") && url.Parsed? && (url.c.None? || url.c.value == "") ==>
      r == (if LastSegment(url.pathname) != "" then LastSegment(url.pathname) else decoded)
  {
    if StartsWith(decoded, "http") then
      match url
      case Invalid => decoded
      case Parsed(c, path) => OrElse(OrElse(if c.Some? then c.value else "", LastSegment(path)), decoded)
    else Trim(decoded)
  }

  /** `cleanId`: the extracted identifier with the prefix ensured. */
  function ScannedId(decoded: string, url: UrlParse): (r: string)
    ensures StartsWith(r, Prefix) && IsUpper(r)
  {
    WithPrefix(ExtractedId(decoded, url))
  }

  /** The link the dashboard puts in a record's QR code, `origin + "/?c=" + code`, scans back to
      the stored number, whichever path the `URL` parser reports. */
  lemma {:induction false} ShareLinkScansBack(origin: string, id: string, path: string)
    requires StartsWith(origin, "http")
    requires StoredNumber(id) && !StartsWith(id[|Prefix|..], Prefix) && |id| > |Prefix|
    ensures var text := origin + "/?c=" + ShareCode(id);
      ScannedId(text, Parsed(Some(ShareCode(id)), path)) == id
  {
    ShareCodeRoundTrip(id);
    assert |ShareCode(id)| == |id| - |Prefix|;
    ScansLink(origin, ShareCode(id), path);
  }

  lemma ScansLink(origin: string, code: string, path: string)
    requires StartsWith(origin, "http") && code != ""
    ensures ScannedId(origin + "/?c=" + code, Parsed(Some(code), path)) == WithPrefix(code)
  {
    LinkStartsWithOrigin(origin, "/?c=" + code);
    assert origin + "/?c=" + code == origin + ("/?c=" + code);
    ScansCode(origin + ("/?c=" + code), code, path);
  }

  lemma LinkStartsWithOrigin(origin: string, rest: string)
    requires StartsWith(origin, "http")
    ensures StartsWith(origin + rest, "http")
  {
    assert (origin + rest)[..|"http"|] == origin[..|"http"|];
  }

  /** A link whose `c` parameter is set is read as that parameter. */
  lemma ScansCode(text: string, code: string, path: string)
    requires StartsWith(text, "http") && code != ""
    ensures ExtractedId(text, Parsed(Some(code), path)) == code
  {
  }

  /** A link with white space before it is not read as a link: the `http` test sees the blank,
      and the whole trimmed link becomes the identifier. */
  lemma PaddedLinkIsText(link: string, url: UrlParse)
    requires StartsWith(link, "http")
    ensures ExtractedId(" " + link, url) == Trim(link)
    ensures ScannedId(" " + link, url) == WithPrefix(Trim(link))
  {
    BlankNotHttp(link);
    BlankThenTrim(link);
  }

  lemma BlankNotHttp(link: string)
    ensures !StartsWith(" " + link, "http")
  {
    if |link| >= 3 {
      assert (" " + link)[..|"http"|][0] == ' ';
    }
  }

  lemma BlankThenTrim(x: string)
    ensures Trim(" " + x) == Trim(x)
  {
    assert IsSpace((" " + x)[0]);
    assert (" " + x)[1..] == x;
  }

  // ---------------------------------------------------------------- the page state

  /** `lastVerifiedId.current`. */
  datatype LastId = NoLast | Last(id: string)

  /** The `c` parameter of the page address; `Root` is the address without one. */
  datatype Address = Root | Query(c: string)

  /** `result`: the row a verification returned. */
  datatype Shown = NoResult | Result(row: Row)

  datatype PageState = PageState(certId: string, result: Shown, loading: bool,
                                 isErrorModalOpen: bool, isInputErrorModalOpen: bool,
                                 viewSummary: bool, isScannerOpen: bool, imageError: bool,
                                 isFullscreen: bool, lastVerifiedId: LastId)

  /** The page as it loads (src/app/page.tsx:61-71). */
  const Start: PageState := PageState(Prefix, NoResult, false, false, false, false, false, false, false, NoLast)

  /** The page state together with the address it shows. */
  datatype Screen = Screen(ui: PageState, address: Address)

  /** What `verifyCertificate(id.trim())` answers; `fail` stands for the database call throwing. */
  function Answer(legacy: Table, modern: Table, id: string, fail: bool): VerifyResult {
    if fail then VerifyError else Lookup(legacy, modern, Trim(id))
  }

  /** The number written back to the address and kept in `lastVerifiedId`. */
  function VerifiedKey(id: string): (key: string)
    ensures IsUpper(key)
    ensures StartsWith(id, Prefix) ==> StartsWith(key, Prefix)
  {
    UpperIsUpper(Trim(id));
    KeyKeepsPrefix(id);
    Upper(Trim(id))
  }

  lemma KeyKeepsPrefix(id: string)
    ensures StartsWith(id, Prefix) ==> StartsWith(Upper(Trim(id)), Prefix)
  {
    if StartsWith(id, Prefix) {
      ProbeKeepsPrefix(id);
    }
  }

  /** `autoVerify(id)` given the verification's answer. */
  function AfterVerify(s: Screen, answer: VerifyResult, id: string): Screen {
    if Refused(id) then s.(ui := s.ui.(isInputErrorModalOpen := true))
    else if s.ui.loading then s
    else match answer
      case Verified(row, _) =>
        Screen(s.ui.(lastVerifiedId := Last(VerifiedKey(id)), result := Result(row), viewSummary := true,
                     imageError := s.ui.imageError || row.fields.googlePhotosLink == ""),
               Query(ShareCode(VerifiedKey(id))))
      case _ => s.(ui := s.ui.(isErrorModalOpen := true))
  }

  /** The effect on the `c` parameter: a non-empty code is prefixed and, unless it is the number
      verified last, put in the box and verified; without a code, `lastVerifiedId` is cleared. */
  function AfterQuery(s: Screen, legacy: Table, modern: Table, fail: bool): Screen {
    if s.address.Query? && s.address.c != "" then
      var fullId := WithPrefix(s.address.c);
      if s.ui.lastVerifiedId == Last(fullId) then s
      else AfterVerify(s.(ui := s.ui.(certId := fullId)), Answer(legacy, modern, fullId, fail), fullId)
    else s.(ui := s.ui.(lastVerifiedId := NoLast))
  }

  /** `processDecodedText`. */
  function AfterScan(s: Screen, legacy: Table, modern: Table, decoded: string, url: UrlParse, fail: bool): Screen {
    var id := ScannedId(decoded, url);
    var v := AfterVerify(s.(ui := s.ui.(certId := id)), Answer(legacy, modern, id, fail), id);
    v.(ui := v.ui.(isScannerOpen := false))
  }

  /** `resetSearch`, with `router.replace("/")` clearing the address. */
  function AfterReset(s: Screen): Screen {
    Screen(s.ui.(lastVerifiedId := NoLast, result := NoResult, viewSummary := false, certId := Prefix,
                 imageError := false), Root)
  }

  // ---------------------------------------------------------------- what verification promises

  /** A refused identifier opens the input error and nothing else, whatever the lookup would say. */
  lemma RefusedSkipsLookup(s: Screen, id: string, a: VerifyResult, b: VerifyResult)
    requires Refused(id)
    ensures AfterVerify(s, a, id) == AfterVerify(s, b, id)
    ensures AfterVerify(s, a, id) == s.(ui := s.ui.(isInputErrorModalOpen := true))
  {
  }

  /** On success the address carries the upper-cased number with its first `RMMO-` removed; for a
      number that starts with the prefix this is the number after the prefix. */
  lemma {:induction false} SuccessWritesShareCode(s: Screen, row: Row, isModern: bool, id: string)
    requires !Refused(id) && !s.ui.loading
    requires StartsWith(VerifiedKey(id), Prefix)
    ensures var after := AfterVerify(s, Verified(row, isModern), id);
      after.address == Query(VerifiedKey(id)[|Prefix|..])
      && after.ui.lastVerifiedId == Last(VerifiedKey(id))
      && after.ui.viewSummary && after.ui.result == Result(row)
  {
    var key := VerifiedKey(id);
    StartsWithIndex(key, Prefix);
    assert key[..0] + "" + key[|Prefix|..] == key[|Prefix|..];
  }

  /** A failed lookup opens the error modal and keeps the rest, including the last result shown. */
  lemma FailureOpensError(s: Screen, answer: VerifyResult, id: string)
    requires !Refused(id) && !s.ui.loading && !answer.Verified?
    ensures AfterVerify(s, answer, id) == s.(ui := s.ui.(isErrorModalOpen := true))
  {
  }

  /** Any identifier that starts with the prefix keeps it once trimmed and upper-cased. */
  lemma ProbeKeepsPrefix(id: string)
    requires StartsWith(id, Prefix)
    ensures StartsWith(Upper(Trim(id)), Prefix)
  {
    PrefixedHead(id);
    assert TrimStart(id) == id;
    var r := TrimEnd(id);
    assert id[4] == '-';
    assert |r| > 4;
    assert r[..|Prefix|] == id[..|Prefix|];
    assert r == r[..|Prefix|] + r[|Prefix|..];
    UpperAppend(r[..|Prefix|], r[|Prefix|..]);
    assert Upper(Prefix) == Prefix;
    PrefixThen(Prefix, Upper(r[|Prefix|..]));
  }

  /** The code written back after a success does not start a second verification: the effect
      on the new address finds the number it was just given, unless the number after the
      prefix starts with the prefix again. */
  lemma {:induction false} WrittenCodeIsQuiet(s: Screen, row: Row, isModern: bool, id: string,
                                              legacy: Table, modern: Table, fail: bool)
    requires !Refused(id) && !s.ui.loading && StartsWith(id, Prefix)
    requires !StartsWith(VerifiedKey(id)[|Prefix|..], Prefix)
    ensures var after := AfterVerify(s, Verified(row, isModern), id);
      AfterQuery(after, legacy, modern, fail) == after
  {
    var key := VerifiedKey(id);
    ShareCodeRoundTrip(key);
    SuccessWritesShareCode(s, row, isModern, id);
  }

  /** A number whose rest starts with the prefix again is verified twice: the code written
      back is itself prefixed, so the effect puts the shorter number in the box and
      verifies that one. */
  lemma {:induction false} DoubledNumberVerifiedAgain(s: Screen, row: Row, isModern: bool, id: string,
                                                      legacy: Table, modern: Table, fail: bool)
    requires !Refused(id) && !s.ui.loading && StartsWith(id, Prefix)
    requires StartsWith(VerifiedKey(id)[|Prefix|..], Prefix)
    ensures var after := AfterVerify(s, Verified(row, isModern), id);
      var again := AfterQuery(after, legacy, modern, fail);
      after.ui.certId == s.ui.certId
      && again.ui.certId == VerifiedKey(id)[|Prefix|..] != VerifiedKey(id)
  {
    var key := VerifiedKey(id);
    var rest := key[|Prefix|..];
    var after := AfterVerify(s, Verified(row, isModern), id);
    SuccessWritesShareCode(s, row, isModern, id);
    VerifyKeepsBox(s, Verified(row, isModern), id);
    PrefixedRestKept(key);
    assert after.address == Query(rest) && rest != "";
    assert after.ui.lastVerifiedId != Last(rest);
    var box := after.(ui := after.ui.(certId := rest));
    VerifyKeepsBox(box, Answer(legacy, modern, rest, fail), rest);
  }

  /** The rest of an upper-case prefixed value that starts with the prefix again is its own
      prefixed form, and shorter than the value. */
  lemma PrefixedRestKept(key: string)
    requires IsUpper(key) && StartsWith(key, Prefix) && StartsWith(key[|Prefix|..], Prefix)
    ensures key[|Prefix|..] != "" && |key[|Prefix|..]| < |key|
    ensures WithPrefix(key[|Prefix|..]) == key[|Prefix|..]
  {
    UpperSlice(key, |Prefix|, |key|);
    UpperOfUpper(key[|Prefix|..]);
  }

  /** Verifying never edits the search box. */
  lemma VerifyKeepsBox(s: Screen, answer: VerifyResult, id: string)
    ensures AfterVerify(s, answer, id).ui.certId == s.ui.certId
  {
    if !Refused(id) && !s.ui.loading {
      match answer
      case Verified(row, _) =>
      case NotFound =>
      case VerifyError =>
    }
  }

  /** After a reset the address has no code, so the effect changes nothing, and the box holds
      the bare prefix, which a search refuses. */
  lemma ResetIsQuiet(s: Screen, legacy: Table, modern: Table, fail: bool)
    ensures AfterQuery(AfterReset(s), legacy, modern, fail) == AfterReset(s)
    ensures Refused(AfterReset(s).ui.certId)
  {
    var r := AfterReset(s);
    assert r.address == Root && r.ui.lastVerifiedId == NoLast;
    assert r.ui.(lastVerifiedId := NoLast) == r.ui;
    assert r.ui.certId == Prefix;
    TrimNoop(Prefix);
  }

  // ---------------------------------------------------------------- the page

  /** `VerifyContent`; `store` is the database behind `verifyCertificate`. */
  class VerifyPage {
    const store: Store
    var ui: PageState
    var address: Address

    function Now(): Screen
      reads this
    {
      Screen(ui, address)
    }

    /** The page loads at an address, with or without a `c` parameter. */
    constructor(db: Store, initial: Address)
      ensures store == db && ui == Start && address == initial
    {
      store := db;
      ui := Start;
      address := initial;
    }

    /** `handleInputChange`. */
    method InputChange(typed: string)
      modifies this
      ensures ui == old(ui).(certId := InputValue(typed)) && address == old(address)
    {
      var value := Upper(typed);
      if StartsWith(value, DoublePrefix) {
        value := ReplaceFirst(value, DoublePrefix, Prefix);
      } else if !StartsWith(value, Prefix) {
        value := Prefix;
      }
      ui := ui.(certId := value);
    }

    /** `autoVerify(id)`, with `fail` for the verification throwing. */
    method AutoVerify(id: string, fail: bool)
      modifies this
      ensures Now() == AfterVerify(old(Now()), Answer(store.legacy, store.modern, id, fail), id)
    {
      if id == "" || Trim(id) == Prefix {
        ui := ui.(isInputErrorModalOpen := true);
        return;
      }
      if ui.loading {
        return;
      }
      ui := ui.(loading := true);
      var res := store.VerifyCertificate(Trim(id), fail);
      ShowAnswer(res, id);
    }

    /** The rest of `autoVerify` once the answer is in: the result and the written-back
        code on success, the error modal otherwise, and the spinner off. */
    method ShowAnswer(res: VerifyResult, id: string)
      requires !Refused(id)
      modifies this
      ensures Now() == AfterVerify(old(Now()).(ui := old(ui).(loading := false)), res, id)
    {
      if res.Verified? {
        var last := Upper(Trim(id));
        var idOnly := ReplaceFirst(last, Prefix, "");
        address := Query(idOnly);
        ui := ui.(lastVerifiedId := Last(last), result := Result(res.row), viewSummary := true,
                  imageError := ui.imageError || res.row.fields.googlePhotosLink == "");
      } else {
        ui := ui.(isErrorModalOpen := true);
      }
      ui := ui.(loading := false);
    }

    /** The search form's submit: verifies what the box holds. */
    method SubmitSearch(fail: bool)
      modifies this
      ensures Now() == AfterVerify(old(Now()), Answer(store.legacy, store.modern, old(ui.certId), fail), old(ui.certId))
    {
      AutoVerify(ui.certId, fail);
    }

    /** `processDecodedText`, with the `URL` constructor's outcome as `url`. */
    method ProcessDecodedText(decoded: string, url: UrlParse, fail: bool)
      modifies this
      ensures Now() == AfterScan(old(Now()), store.legacy, store.modern, decoded, url, fail)
    {
      var extractedId := Trim(decoded);
      if StartsWith(decoded, "http") {
        match url
        case Invalid =>
          extractedId := decoded;
        case Parsed(c, path) =>
          var queryParam := if c.Some? then c.value else "";
          extractedId := OrElse(OrElse(queryParam, LastSegment(path)), decoded);
      }
      var cleanId := WithPrefix(extractedId);
      ui := ui.(certId := cleanId);
      AutoVerify(cleanId, fail);
      ui := ui.(isScannerOpen := false);
    }

    /** The effect that runs when the address's search parameters change. */
    method QueryEffect(fail: bool)
      modifies this
      ensures Now() == AfterQuery(old(Now()), store.legacy, store.modern, fail)
    {
      if address.Query? && address.c != "" {
        var fullId := WithPrefix(address.c);
        if ui.lastVerifiedId != Last(fullId) {
          ui := ui.(certId := fullId);
          AutoVerify(fullId, fail);
        }
      } else {
        ui := ui.(lastVerifiedId := NoLast);
      }
    }

    /** `resetSearch`. */
    method ResetSearch()
      modifies this
      ensures Now() == AfterReset(old(Now()))
    {
      ui := ui.(lastVerifiedId := NoLast, result := NoResult, viewSummary := false, certId := Prefix);
      ui := ui.(imageError := false);
      address := Root;
    }
  }
}
