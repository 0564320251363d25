/** The certificate identifier `RMMO-` YY F MM S DD C NN (src/lib/utils.ts) and
    the `RMMO-` prefix conventions that both pages apply to identifiers typed
    or scanned by a person. */
module CertificateId {
  import opened Text

  const Prefix: string := "RMMO-"

  // ---------------------------------------------------------------- the generator's pieces

  /** Piece `i` of a split, `""` standing for a missing piece (both are falsy in JavaScript). */
  function Piece(parts: seq<string>, i: nat): string {
    if i < |parts| then parts[i] else ""
  }

  /** JavaScript `x || fallback` on a string. */
  function OrElse(x: string, fallback: string): string {
    if x == "" then fallback else x
  }

  /** YY: the last two characters of the first `-` piece of the issue date, "2026" when it is empty. */
  function YearDigits(dateIssued: string): (yy: string)
    ensures |yy| <= 2
  {
    var fullYear := OrElse(Piece(Split(dateIssued, '-'), 0), "2026");
    if |fullYear| >= 2 then fullYear[|fullYear| - 2..] else fullYear
  }

  /** MM: the second `-` piece of the issue date, copied as it is, "01" when missing or empty. */
  function MonthPart(dateIssued: string): string {
    OrElse(Piece(Split(dateIssued, '-'), 1), "01")
  }

  /** DD: the third `-` piece of the issue date, copied as it is, "01" when missing or empty. */
  function DayPart(dateIssued: string): string {
    OrElse(Piece(Split(dateIssued, '-'), 2), "01")
  }

  /** `name.charAt(0).toUpperCase()`: one upper-case letter, or nothing for an empty name. */
  function Initial(name: string): (f: string)
    ensures |f| == if name == "" then 0 else 1
    ensures name != "" ==> f[0] == UpperChar(name[0])
  {
    if name == "" then "" else [UpperChar(name[0])]
  }

  /** C: the letter of the certificate type; unknown labels count as completion. */
  function TypeLetter(certType: string): (c: char)
    ensures c == 'A' <==> certType == "Awards Certificate"
    ensures c == 'S' <==> certType == "Certificate of Appreciation"
    ensures c == 'C' <==> certType != "Awards Certificate" && certType != "Certificate of Appreciation"
  {
    if certType == "Awards Certificate" then 'A'
    else if certType == "Certificate of Appreciation" then 'S'
    else 'C'
  }

  /** NN: `serial.toString().padStart(2, '0')`. */
  function SerialString(serial: int): (r: string)
    ensures |r| >= 2
    ensures serial < 0 ==> r == "-" + NatToString(-serial)
  {
    PadStart(IntToString(serial), 2, '0')
  }

  /** A natural serial comes out as at least two decimal digits whose value is the serial:
      one digit gets a leading '0', longer numbers are never truncated. */
  lemma {:induction false} SerialStringValue(serial: nat)
    ensures AllDigits(SerialString(serial)) && DigitsValue(SerialString(serial)) == serial
    ensures |SerialString(serial)| == if serial < 10 then 2 else |NatToString(serial)|
  {
    var text := NatToString(serial);
    DigitsValueOfNat(serial);
    if serial < 10 {
      DigitsValueLeadingZero(text);
      assert PadStart(text, 2, '0') == "0" + text;
    }
  }

  /** A negative serial keeps its minus sign, so it is never all digits. */
  lemma NegativeSerialNotDigits(k: int)
    requires k < 0
    ensures !AllDigits(SerialString(k))
  {
    assert SerialString(k)[0] == '-';
  }

  /** Different serials render differently. */
  lemma {:induction false} SerialStringInjective(m: int, n: int)
    requires SerialString(m) == SerialString(n)
    ensures m == n
  {
    if m >= 0 && n >= 0 {
      SerialStringValue(m);
      SerialStringValue(n);
    } else if m < 0 && n < 0 {
      var a, b := SerialString(m), SerialString(n);
      assert NatToString(-m) == a[1..];
      assert NatToString(-n) == b[1..];
      NatToStringInjective(-m, -n);
    } else if m < 0 {
      SerialStringValue(n);
      NegativeSerialNotDigits(m);
      assert false;
    } else {
      SerialStringValue(m);
      NegativeSerialNotDigits(n);
      assert false;
    }
  }

  // ---------------------------------------------------------------- the generator

  /** The text after `RMMO-`: the template `${yy}${f}${mm}${s}${dd}${c}${serialStr}`. */
  function IdBody(yy: string, f: string, mm: string, s: string, dd: string, c: char, serialText: string): string {
    yy + f + mm + s + dd + [c] + serialText
  }

  /** `generateCertificateID`: the identifier of a certificate. `yearGraduated` is accepted
      and not used. */
  function Generate(firstName: string, surname: string, dateIssued: string,
                    yearGraduated: string, certType: string, serial: int): (id: string)
    ensures StartsWith(id, Prefix)
  {
    var body := IdBody(YearDigits(dateIssued), Initial(firstName), MonthPart(dateIssued),
                       Initial(surname), DayPart(dateIssued), TypeLetter(certType), SerialString(serial));
    PrefixThen(Prefix, body);
    Prefix + body
  }

  /** The graduation year never influences the identifier. */
  lemma GenerateIgnoresYearGraduated(firstName: string, surname: string, dateIssued: string,
                                     y1: string, y2: string, certType: string, serial: int)
    ensures Generate(firstName, surname, dateIssued, y1, certType, serial)
         == Generate(firstName, surname, dateIssued, y2, certType, serial)
  {
  }

  /** Two calls that differ only in the serial give different identifiers. */
  lemma {:induction false} GenerateSeparatesSerials(firstName: string, surname: string, dateIssued: string,
                                                 yearGraduated: string, certType: string, m: int, n: int)
    requires m != n
    ensures Generate(firstName, surname, dateIssued, yearGraduated, certType, m)
         != Generate(firstName, surname, dateIssued, yearGraduated, certType, n)
  {
    var head := YearDigits(dateIssued) + Initial(firstName) + MonthPart(dateIssued)
      + Initial(surname) + DayPart(dateIssued) + [TypeLetter(certType)];
    var a := Generate(firstName, surname, dateIssued, yearGraduated, certType, m);
    var b := Generate(firstName, surname, dateIssued, yearGraduated, certType, n);
    PrefixThen(Prefix, head + SerialString(m));
    PrefixThen(Prefix, head + SerialString(n));
    if a == b {
      assert head + SerialString(m) == head + SerialString(n);
      assert SerialString(m) == (head + SerialString(m))[|head|..];
      assert SerialString(n) == (head + SerialString(n))[|head|..];
      SerialStringInjective(m, n);
    }
  }

  /** A date written Y-M-D (no `-` inside the pieces) yields the last two characters of Y,
      and M and D exactly as written, without padding or range checks. */
  lemma DatePartsVerbatim(y: string, m: string, d: string)
    requires '-' !in y && '-' !in m && '-' !in d
    requires y != "" && m != "" && d != ""
    ensures YearDigits(y + "-" + m + "-" + d) == if |y| >= 2 then y[|y| - 2..] else y
    ensures MonthPart(y + "-" + m + "-" + d) == m
    ensures DayPart(y + "-" + m + "-" + d) == d
  {
    assert y + "-" + m + "-" + d == y + ['-'] + (m + ['-'] + d);
    SplitAt(y, '-', m + ['-'] + d);
    SplitAt(m, '-', d);
    SplitNoSep(d, '-');
  }

  /** An empty issue date falls back to year "2026", month "01" and day "01". */
  lemma EmptyDateDefaults(firstName: string, surname: string, yearGraduated: string,
                          certType: string, serial: int)
    ensures Generate(firstName, surname, "", yearGraduated, certType, serial)
         == Prefix + IdBody("26", Initial(firstName), "01", Initial(surname), "01",
                            TypeLetter(certType), SerialString(serial))
  {
    assert Split("", '-') == [""];
    assert YearDigits("") == "26";
    assert MonthPart("") == "01" && DayPart("") == "01";
  }

  /** With a two-character year tail, month and day, two non-empty names and a serial below
      100 the identifier has exactly 16 characters. */
  lemma {:induction false} WellFormedLength(firstName: string, surname: string, dateIssued: string,
                                            yearGraduated: string, certType: string, serial: int)
    requires firstName != "" && surname != ""
    requires |YearDigits(dateIssued)| == 2 && |MonthPart(dateIssued)| == 2 && |DayPart(dateIssued)| == 2
    requires 0 <= serial < 100
    ensures |Generate(firstName, surname, dateIssued, yearGraduated, certType, serial)| == 16
  {
    SerialStringValue(serial);
    if serial >= 10 {
      assert NatToString(serial) == NatToString(serial / 10) + [DigitChar(serial % 10)];
    }
  }

  /** A one-digit serial gets one leading zero. */
  lemma SerialBelowTen(serial: int)
    requires 0 <= serial < 10
    ensures SerialString(serial) == ['0', DigitChar(serial)]
  {
    assert IntToString(serial) == [DigitChar(serial)];
  }

  /** A two-digit serial is written as its two digits. */
  lemma SerialBelowHundred(serial: int)
    requires 10 <= serial < 100
    ensures SerialString(serial) == [DigitChar(serial / 10), DigitChar(serial % 10)]
  {
    assert NatToString(serial) == NatToString(serial / 10) + [DigitChar(serial % 10)];
  }

  /** A three-digit serial keeps all three digits: `padStart` never cuts to two characters. */
  lemma SerialBelowThousand(serial: int)
    requires 100 <= serial < 1000
    ensures SerialString(serial) == [DigitChar(serial / 100), DigitChar(serial / 10 % 10), DigitChar(serial % 10)]
  {
    var high := serial / 10;
    TenthOfThreeDigits(serial);
    LastDigitSplit(serial);
    LastDigitSplit(high);
    assert NatToString(high / 10) == [DigitChar(serial / 100)];
  }

  lemma TenthOfThreeDigits(n: int)
    requires 100 <= n < 1000
    ensures 10 <= n / 10 < 100 && n / 10 / 10 == n / 100 && n / 100 < 10
  {
  }

  lemma LastDigitSplit(n: nat)
    requires n >= 10
    ensures NatToString(n) == NatToString(n / 10) + [DigitChar(n % 10)]
  {
  }

  // Two worked identifiers, checked one piece at a time.

  lemma InitialOf(name: string, c: char)
    requires name != "" && name[0] == c && 'A' <= c <= 'Z'
    ensures Initial(name) == [c]
  {
  }

  lemma CompletionDate(dateIssued: string)
    requires dateIssued == "2026-03-27"
    ensures YearDigits(dateIssued) == "26" && MonthPart(dateIssued) == "03" && DayPart(dateIssued) == "27"
  {
    var y, m, d := "2026", "03", "27";
    assert dateIssued == y + "-" + m + "-" + d;
    DatePartsVerbatim(y, m, d);
  }

  lemma CompletionLetterAndSerial(certType: string, serial: int)
    requires certType == "Certificate of Completion" && serial == 1
    ensures TypeLetter(certType) == 'C' && SerialString(serial) == "01"
  {
    SerialBelowTen(serial);
  }

  lemma CompletionText(yy: string, fi: string, mm: string, si: string, dd: string, c: char, nn: string)
    requires yy == "26" && fi == "J" && mm == "03" && si == "D" && dd == "27" && c == 'C' && nn == "01"
    ensures Prefix + IdBody(yy, fi, mm, si, dd, c, nn) == "RMMO-26J03D27C01"
  {
  }

  /** JUAN DELACRUZ's completion certificate of 27 March 2026, the first of its kind, is RMMO-26J03D27C01. */
  lemma CompletionExample(firstName: string, surname: string, dateIssued: string, yearGraduated: string,
                          certType: string, serial: int)
    requires firstName == "JUAN" && surname == "DELACRUZ" && dateIssued == "2026-03-27"
    requires certType == "Certificate of Completion" && serial == 1
    ensures Generate(firstName, surname, dateIssued, yearGraduated, certType, serial) == "RMMO-26J03D27C01"
  {
    CompletionDate(dateIssued);
    InitialOf(firstName, 'J');
    InitialOf(surname, 'D');
    CompletionLetterAndSerial(certType, serial);
    CompletionText(YearDigits(dateIssued), Initial(firstName), MonthPart(dateIssued), Initial(surname),
                   DayPart(dateIssued), TypeLetter(certType), SerialString(serial));
  }

  lemma AwardsDate(dateIssued: string)
    requires dateIssued == "2025-12-05"
    ensures YearDigits(dateIssued) == "25" && MonthPart(dateIssued) == "12" && DayPart(dateIssued) == "05"
  {
    var y, m, d := "2025", "12", "05";
    assert dateIssued == y + "-" + m + "-" + d;
    DatePartsVerbatim(y, m, d);
  }

  lemma AwardsLetterAndSerial(certType: string, serial: int)
    requires certType == "Awards Certificate" && serial == 12
    ensures TypeLetter(certType) == 'A' && SerialString(serial) == "12"
  {
    SerialBelowHundred(serial);
  }

  lemma AwardsText(yy: string, fi: string, mm: string, si: string, dd: string, c: char, nn: string)
    requires yy == "25" && fi == "A" && mm == "12" && si == "S" && dd == "05" && c == 'A' && nn == "12"
    ensures Prefix + IdBody(yy, fi, mm, si, dd, c, nn) == "RMMO-25A12S05A12"
  {
  }

  /** ANA SANTOS's awards certificate of 5 December 2025, the twelfth of its kind, is RMMO-25A12S05A12. */
  lemma AwardsExample(firstName: string, surname: string, dateIssued: string, yearGraduated: string,
                      certType: string, serial: int)
    requires firstName == "ANA" && surname == "SANTOS" && dateIssued == "2025-12-05"
    requires certType == "Awards Certificate" && serial == 12
    ensures Generate(firstName, surname, dateIssued, yearGraduated, certType, serial) == "RMMO-25A12S05A12"
  {
    AwardsDate(dateIssued);
    InitialOf(firstName, 'A');
    InitialOf(surname, 'S');
    AwardsLetterAndSerial(certType, serial);
    AwardsText(YearDigits(dateIssued), Initial(firstName), MonthPart(dateIssued), Initial(surname),
               DayPart(dateIssued), TypeLetter(certType), SerialString(serial));
  }

  // ---------------------------------------------------------------- reading an identifier back

  /** The fields a well-formed 16-or-more character identifier carries. */
  datatype IdFields = IdFields(year: string, first: char, month: string, last: char,
                               day: string, letter: char, serial: nat)

  /** Reads the fields back out of the text after the prefix: two characters of year, an
      initial, two of month, an initial, two of day, the type letter, then the serial's digits. */
  function DecodeBody(body: string): Option<IdFields> {
    if |body| >= 11 && AllDigits(body[9..]) then
      Some(IdFields(body[0..2], body[2], body[3..5], body[5], body[6..8], body[8], DigitsValue(body[9..])))
    else None
  }

  /** Reads the fields back out of an identifier of the fixed layout. */
  function Decode(id: string): Option<IdFields> {
    if StartsWith(id, Prefix) then DecodeBody(id[|Prefix|..]) else None
  }

  /** Where each piece sits in the text after the prefix when the date pieces have two characters each. */
  lemma {:induction false} LayoutPositions(yy: string, fi: char, mm: string, si: char, dd: string,
                                           c: char, nn: string)
    requires |yy| == 2 && |mm| == 2 && |dd| == 2 && |nn| >= 2
    ensures var body := IdBody(yy, [fi], mm, [si], dd, c, nn);
      |body| >= 11 && body[0..2] == yy && body[2] == fi && body[3..5] == mm
      && body[5] == si && body[6..8] == dd && body[8] == c && body[9..] == nn
  {
    var h := yy + [fi] + mm + [si] + dd + [c];
    var body := h + nn;
    assert |h| == 9;
    assert body[..9] == h;
    assert body[9..] == nn;
    assert h[0..2] == yy;
    assert h[3..5] == mm;
    assert h[6..8] == dd;
  }

  /** Decoding a generated identifier recovers every field it was built from, the serial included:
      under the fixed layout the identifier determines its inputs' initials, date pieces, type
      letter and serial. */
  lemma {:induction false} DecodeGenerate(firstName: string, surname: string, dateIssued: string,
                                          yearGraduated: string, certType: string, serial: int)
    requires firstName != "" && surname != "" && serial >= 0
    requires |YearDigits(dateIssued)| == 2 && |MonthPart(dateIssued)| == 2 && |DayPart(dateIssued)| == 2
    ensures Decode(Generate(firstName, surname, dateIssued, yearGraduated, certType, serial))
         == Some(IdFields(YearDigits(dateIssued), UpperChar(firstName[0]), MonthPart(dateIssued),
                          UpperChar(surname[0]), DayPart(dateIssued), TypeLetter(certType), serial))
  {
    var yy, mm, dd := YearDigits(dateIssued), MonthPart(dateIssued), DayPart(dateIssued);
    var fi, si, c := UpperChar(firstName[0]), UpperChar(surname[0]), TypeLetter(certType);
    var nn := SerialString(serial);
    assert Initial(firstName) == [fi] && Initial(surname) == [si];
    var body := IdBody(yy, [fi], mm, [si], dd, c, nn);
    PrefixThen(Prefix, body);
    LayoutPositions(yy, fi, mm, si, dd, c, nn);
    SerialStringValue(serial);
  }

  // ---------------------------------------------------------------- JavaScript call semantics

  /** A JavaScript argument as the generator receives it at run time. */
  datatype JsValue = Undefined | JsString(text: string) | JsNumber(number: int)

  /** A call either returns an identifier or throws. */
  datatype Outcome = Returned(id: string) | Threw(message: string)

  /** `generateCertificateID` as JavaScript runs it when its last two parameters may receive
      any value: `type === "..."` is false for a non-string, and `serial.toString()` throws
      when `serial` is `undefined`. */
  function GenerateDynamic(firstName: string, surname: string, dateIssued: string,
                           yearGraduated: JsValue, certType: JsValue, serial: JsValue): (r: Outcome)
    ensures r.Threw? <==> serial.Undefined?
    ensures certType.JsString? && serial.JsNumber? ==>
      r == Returned(Generate(firstName, surname, dateIssued, "", certType.text, serial.number))
    ensures !certType.JsString? && serial.JsNumber? ==>
      r == Returned(Generate(firstName, surname, dateIssued, "", "", serial.number))
  {
    var letter := if certType.JsString? then TypeLetter(certType.text) else 'C';
    match serial
    case Undefined => Threw("TypeError: Cannot read properties of undefined (reading 'toString')")
    case JsString(t) =>
      Returned(Prefix + IdBody(YearDigits(dateIssued), Initial(firstName), MonthPart(dateIssued),
                               Initial(surname), DayPart(dateIssued), letter, PadStart(t, 2, '0')))
    case JsNumber(n) =>
      Returned(Prefix + IdBody(YearDigits(dateIssued), Initial(firstName), MonthPart(dateIssued),
                               Initial(surname), DayPart(dateIssued), letter, SerialString(n)))
  }

  // ---------------------------------------------------------------- the prefix as people type it

  /** Upper-cases an identifier and puts `RMMO-` in front unless it is already there
      (src/app/page.tsx:76-78 and 100-102, src/app/dashboard/page.tsx:308 with 314 and 328). */
  function WithPrefix(s: string): (r: string)
    ensures StartsWith(r, Prefix) && IsUpper(r)
    ensures StartsWith(Upper(s), Prefix) ==> r == Upper(s)
    ensures !StartsWith(Upper(s), Prefix) ==> r == Prefix + Upper(s)
  {
    UpperIsUpper(s);
    var u := Upper(s);
    if StartsWith(u, Prefix) then u else Prefix + u
  }

  /** A prefixed identifier starts with the letter R, which is not white space. */
  lemma PrefixedHead(s: string)
    requires StartsWith(s, Prefix)
    ensures |s| >= |Prefix| && s[0] == 'R' && !IsSpace(s[0])
  {
    assert s[0] == s[..|Prefix|][0];
  }

  /** A certificate number as the actions store it: prefixed, upper-case, trimmed. */
  predicate StoredNumber(s: string) {
    StartsWith(s, Prefix) && IsUpper(s) && |s| > 0 && !IsSpace(s[|s| - 1])
  }

  /** The stored form of a stored number, with the prefix ensured, is itself. */
  lemma StoredNumberKept(s: string)
    requires StoredNumber(s)
    ensures Upper(Trim(WithPrefix(s))) == s
  {
    PrefixedHead(s);
    UpperOfUpper(s);
    TrimNoop(s);
  }

  lemma {:induction false} WithPrefixIdempotent(s: string)
    ensures WithPrefix(WithPrefix(s)) == WithPrefix(s)
  {
    UpperOfUpper(WithPrefix(s));
  }

  /** The share code: the identifier with its first `RMMO-` removed (`replace("RMMO-", "")`). */
  function ShareCode(id: string): string {
    ReplaceFirst(id, Prefix, "")
  }

  /** Removing the prefix from a prefixed identifier leaves the rest; putting it back restores
      an upper-case identifier whose rest does not itself start with the prefix. */
  lemma {:induction false} ShareCodeRoundTrip(id: string)
    requires StartsWith(id, Prefix) && IsUpper(id)
    requires !StartsWith(id[|Prefix|..], Prefix)
    ensures ShareCode(id) == id[|Prefix|..]
    ensures WithPrefix(ShareCode(id)) == id
  {
    StartsWithIndex(id, Prefix);
    UpperOfUpper(id[|Prefix|..]);
    assert Prefix + id[|Prefix|..] == id;
  }
}
