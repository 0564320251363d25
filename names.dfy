/** The dashboard's two views of a holder's name: the three form fields (first name,
    middle name, surname) and the single `issued_to` column built from them on submit
    (src/app/dashboard/page.tsx:304-307) and split back into them when a record is opened
    for editing (src/app/dashboard/page.tsx:209-213). */
module Names {
  import opened Text

  // ---------------------------------------------------------------- white-space runs

  /** Only blanks, and never two in a row. */
  predicate SingleSpaced(s: string) {
    (forall i :: 0 <= i < |s| && IsSpace(s[i]) ==> s[i] == ' ')
    && (forall i :: 0 <= i < |s| - 1 ==> s[i] != ' ' || s[i + 1] != ' ')
  }

  /** `s.replace(/\s+/g, ' ')`: every run of white space becomes one blank. */
  function CollapseSpaces(s: string): (r: string)
    ensures SingleSpaced(r)
    ensures r == [] <==> s == []
    ensures s != [] ==> (IsSpace(s[0]) <==> r[0] == ' ')
    ensures IsUpper(s) ==> IsUpper(r)
    decreases |s|
  {
    if s == [] then []
    else if IsSpace(s[0]) then
      var rest := TrimStart(s);
      assert IsUpper(s) ==> IsUpper(rest) by {
        UpperSlice(s, |s| - |rest|, |s|);
      }
      [' '] + CollapseSpaces(rest)
    else
      assert IsUpper(s) ==> IsUpper(s[1..]) by {
        UpperSlice(s, 1, |s|);
      }
      [s[0]] + CollapseSpaces(s[1..])
  }

  lemma SingleSpacedSlice(s: string, a: nat, b: nat)
    requires a <= b <= |s| && SingleSpaced(s)
    ensures SingleSpaced(s[a..b])
  {
    var t := s[a..b];
    forall i | 0 <= i < |t| - 1
      ensures t[i] != ' ' || t[i + 1] != ' '
    {
      assert t[i] == s[a + i] && t[i + 1] == s[a + i + 1];
    }
    forall i | 0 <= i < |t| && IsSpace(t[i])
      ensures t[i] == ' '
    {
      assert t[i] == s[a + i];
    }
  }

  /** Trimming a single-spaced upper-case text keeps it single-spaced and upper-case. */
  lemma TrimKeepsShape(s: string)
    requires SingleSpaced(s) && IsUpper(s)
    ensures SingleSpaced(Trim(s)) && IsUpper(Trim(s))
  {
    var t := TrimStart(s);
    SingleSpacedSlice(s, |s| - |t|, |s|);
    UpperSlice(s, |s| - |t|, |s|);
    var u := TrimEnd(t);
    SingleSpacedSlice(t, 0, |u|);
    UpperSlice(t, 0, |u|);
  }

  // ---------------------------------------------------------------- building issued_to

  /** The upper-cased name fields joined by blanks, with runs of white space collapsed
      and the ends trimmed. */
  function FullName(firstName: string, middleName: string, surname: string): (r: string)
    ensures SingleSpaced(r) && IsUpper(r)
    ensures r == [] || (r[0] != ' ' && r[|r| - 1] != ' ')
  {
    var joined := Upper(firstName) + " " + Upper(middleName) + " " + Upper(surname);
    UpperJoined(firstName, middleName, surname);
    var collapsed := CollapseSpaces(joined);
    TrimKeepsShape(collapsed);
    TrimShape(collapsed);
    Trim(collapsed)
  }

  lemma UpperJoined(firstName: string, middleName: string, surname: string)
    ensures IsUpper(Upper(firstName) + " " + Upper(middleName) + " " + Upper(surname))
  {
    UpperAppend(firstName + " " + middleName + " ", surname);
    UpperAppend(firstName + " " + middleName, " ");
    UpperAppend(firstName + " ", middleName);
    UpperAppend(firstName, " ");
    UpperIsUpper(firstName + " " + middleName + " " + surname);
  }

  /** A name made of words: the shape `issued_to` has when it was built by `FullName`. */
  predicate Words(ws: seq<string>) {
    |ws| >= 1 && forall k :: 0 <= k < |ws| ==> IsWord(ws[k]) && IsUpper(ws[k])
  }

  lemma {:induction false} CollapseWord(w: string, rest: string)
    requires forall i :: 0 <= i < |w| ==> !IsSpace(w[i])
    ensures CollapseSpaces(w + rest) == w + CollapseSpaces(rest)
  {
    if w != [] {
      CollapseWord(w[1..], rest);
      CollapseCons(w[0], w[1..] + rest);
      HeadThenTail(w, rest);
      HeadThenTail(w, CollapseSpaces(rest));
    } else {
      EmptyThen(rest);
      EmptyThen(CollapseSpaces(rest));
    }
  }

  lemma HeadThenTail(w: string, x: string)
    requires w != []
    ensures [w[0]] + (w[1..] + x) == w + x
  {
  }

  lemma EmptyThen(x: string)
    ensures [] + x == x
  {
  }

  lemma CollapseCons(c: char, rest: string)
    requires !IsSpace(c)
    ensures CollapseSpaces([c] + rest) == [c] + CollapseSpaces(rest)
  {
    assert ([c] + rest)[1..] == rest;
  }

  lemma {:induction false} TrimStartRun(sp: string, rest: string)
    requires forall i :: 0 <= i < |sp| ==> IsSpace(sp[i])
    requires rest == [] || !IsSpace(rest[0])
    ensures TrimStart(sp + rest) == rest
  {
    if sp != [] {
      assert (sp + rest)[1..] == sp[1..] + rest;
      TrimStartRun(sp[1..], rest);
    }
  }

  /** A run of white space before a word, or before the end, collapses to one blank. */
  lemma CollapseRun(sp: string, rest: string)
    requires |sp| > 0 && forall i :: 0 <= i < |sp| ==> IsSpace(sp[i])
    requires rest == [] || !IsSpace(rest[0])
    ensures CollapseSpaces(sp + rest) == " " + CollapseSpaces(rest)
  {
    TrimStartRun(sp, rest);
  }

  lemma {:induction false} JoinEnds(ws: seq<string>)
    requires Words(ws)
    ensures var j := Join(ws, ' ');
      |j| > 0 && j[0] == ws[0][0] && j[|j| - 1] == ws[|ws| - 1][|ws[|ws| - 1]| - 1]
  {
    if |ws| > 1 {
      JoinEnds(ws[1..]);
      assert ws[1..][|ws[1..]| - 1] == ws[|ws| - 1];
    }
  }

  lemma {:induction false} JoinUpper(ws: seq<string>)
    requires forall k :: 0 <= k < |ws| ==> IsUpper(ws[k])
    ensures IsUpper(Join(ws, ' '))
  {
    if |ws| > 1 {
      JoinUpper(ws[1..]);
    }
  }

  /** A single-blank join of words is already collapsed. */
  lemma {:induction false} CollapseJoin(ws: seq<string>)
    requires Words(ws)
    ensures CollapseSpaces(Join(ws, ' ')) == Join(ws, ' ')
  {
    if |ws| == 1 {
      CollapseWord(ws[0], []);
      assert ws[0] + [] == ws[0];
    } else {
      CollapseJoin(ws[1..]);
      JoinEnds(ws[1..]);
      CollapseBlankJoin(ws[0], Join(ws[1..], ' '));
    }
  }

  /** A word, one blank and a collapsed text starting with a non-space stay as they are. */
  lemma CollapseBlankJoin(w: string, rest: string)
    requires IsWord(w)
    requires |rest| > 0 && !IsSpace(rest[0]) && CollapseSpaces(rest) == rest
    ensures CollapseSpaces(w + [' '] + rest) == w + [' '] + rest
  {
    var gap := [' '] + rest;
    BlankThen(w, rest);
    CollapseRun([' '], rest);
    CollapseWord(w, gap);
  }

  lemma BlankThen(w: string, rest: string)
    ensures w + [' '] + rest == w + ([' '] + rest)
  {
  }

  /** A join of words has no white space at either end. */
  lemma JoinTrimmed(ws: seq<string>)
    requires Words(ws)
    ensures Trim(Join(ws, ' ')) == Join(ws, ' ')
  {
    JoinEnds(ws);
    TrimNoop(Join(ws, ' '));
  }

  /** The blank-joined words are exactly the full name built from them. */
  lemma {:induction false} FullNameOfWords(ws: seq<string>)
    requires Words(ws)
    ensures Trim(CollapseSpaces(Join(ws, ' '))) == Join(ws, ' ')
  {
    CollapseJoin(ws);
    JoinTrimmed(ws);
  }

  lemma WordFree(w: string)
    requires IsWord(w)
    ensures ' ' !in w
  {
  }

  lemma {:induction false} SplitWords(ws: seq<string>)
    requires Words(ws)
    ensures Split(Join(ws, ' '), ' ') == ws
  {
    forall k | 0 <= k < |ws|
      ensures ' ' !in ws[k]
    {
      WordFree(ws[k]);
    }
    SplitJoin(ws, ' ');
  }

  // ---------------------------------------------------------------- splitting issued_to

  datatype NameParts = NameParts(first: string, middle: string, surname: string)

  /** `issued_to.split(" ")`, upper-cased: the first piece is the first name; with more than two
      pieces the second is the middle name and the rest, rejoined, the surname; with two
      the second is the surname. */
  function EditNames(issuedTo: string): (p: NameParts)
    ensures IsUpper(p.first) && IsUpper(p.middle) && IsUpper(p.surname)
  {
    var parts := if issuedTo == "" then [] else Split(issuedTo, ' ');
    UpperIsUpper(if |parts| > 0 then parts[0] else "");
    UpperIsUpper(if |parts| > 2 then parts[1] else "");
    UpperIsUpper(if |parts| > 2 then Join(parts[2..], ' ') else if |parts| > 1 then parts[1] else "");
    NameParts(Upper(if |parts| > 0 then parts[0] else ""),
              Upper(if |parts| > 2 then parts[1] else ""),
              Upper(if |parts| > 2 then Join(parts[2..], ' ') else if |parts| > 1 then parts[1] else ""))
  }

  lemma WordAt(ws: seq<string>, k: nat)
    requires Words(ws) && k < |ws|
    ensures IsWord(ws[k]) && IsUpper(ws[k]) && ws[k][0] != ' '
  {
  }

  lemma {:induction false} TrimWordBlank(w: string)
    requires IsWord(w)
    ensures Trim(w + " ") == w
  {
    var t := w + " ";
    assert t[0] == w[0] && !IsSpace(t[0]);
    assert TrimStart(t) == t;
    assert IsSpace(t[|t| - 1]) && t[..|t| - 1] == w;
    assert TrimEnd(w) == w;
  }

  /** A single word with no middle name and no surname gives back the word. */
  lemma {:induction false} FirstNameOnly(w: string)
    requires IsWord(w) && IsUpper(w)
    ensures FullName(w, "", "") == w
  {
    UpperOfUpper(w);
    assert Upper("") == "";
    assert w + " " + "" + " " + "" == w + "  ";
    CollapseWord(w, "  ");
    CollapseRun("  ", []);
    assert "  " + [] == "  " && " " + [] == " ";
    TrimWordBlank(w);
  }

  /** Without a middle name the two blanks collapse: first name, one blank, surname. */
  lemma {:induction false} NoMiddleName(firstName: string, rest: seq<string>)
    requires IsWord(firstName) && IsUpper(firstName) && Words(rest)
    ensures FullName(firstName, "", Join(rest, ' ')) == firstName + " " + Join(rest, ' ')
  {
    var j := Join(rest, ' ');
    JoinUpper(rest);
    JoinEnds(rest);
    CollapseJoin(rest);
    NoMiddleJoined(firstName, j);
    CollapseGap(firstName, "  ", j);
    BlankBetween(firstName, j);
  }

  lemma NoMiddleJoined(firstName: string, surname: string)
    requires IsUpper(firstName) && IsUpper(surname)
    ensures Upper(firstName) + " " + Upper("") + " " + Upper(surname) == firstName + ("  " + surname)
  {
    UpperOfUpper(firstName);
    UpperOfUpper(surname);
    assert Upper("") == "";
  }

  /** A word, a run of white space, then an already collapsed text starting with a word. */
  lemma CollapseGap(a: string, sp: string, b: string)
    requires forall i :: 0 <= i < |a| ==> !IsSpace(a[i])
    requires |sp| > 0 && forall i :: 0 <= i < |sp| ==> IsSpace(sp[i])
    requires b == [] || !IsSpace(b[0])
    requires CollapseSpaces(b) == b
    ensures CollapseSpaces(a + (sp + b)) == a + (" " + b)
  {
    CollapseWord(a, sp + b);
    CollapseRun(sp, b);
  }

  /** Two words around one blank are their own trim. */
  lemma BlankBetween(a: string, b: string)
    requires IsWord(a) && b != [] && !IsSpace(b[|b| - 1])
    ensures Trim(a + (" " + b)) == a + " " + b
  {
    var r := a + " " + b;
    assert a + (" " + b) == r;
    assert r[0] == a[0] && r[|r| - 1] == b[|b| - 1];
    TrimNoop(r);
  }

  /** With a middle name the full name is the blank-joined words. */
  lemma {:induction false} WithMiddleName(ws: seq<string>)
    requires Words(ws) && |ws| > 2
    ensures FullName(ws[0], ws[1], Join(ws[2..], ' ')) == Join(ws, ' ')
  {
    WordAt(ws, 0);
    WordAt(ws, 1);
    UpperOfUpper(ws[0]);
    UpperOfUpper(ws[1]);
    assert forall k :: 0 <= k < |ws[2..]| ==> ws[2..][k] == ws[k + 2];
    JoinUpper(ws[2..]);
    UpperOfUpper(Join(ws[2..], ' '));
    ThreeOrMore(ws);
    FullNameOfWords(ws);
  }

  /** Pieces of a three-word split. */
  lemma ThreeOrMore(ws: seq<string>)
    requires |ws| > 2
    ensures Join(ws, ' ') == ws[0] + " " + ws[1] + " " + Join(ws[2..], ' ')
  {
    assert ws[1..][1..] == ws[2..];
  }

  lemma JoinCons(ws: seq<string>)
    requires |ws| > 1
    ensures Join(ws, ' ') == ws[0] + " " + Join(ws[1..], ' ')
  {
  }

  lemma WordsTail(ws: seq<string>)
    requires Words(ws) && |ws| > 1
    ensures Words(ws[1..])
  {
    assert forall k :: 0 <= k < |ws[1..]| ==> ws[1..][k] == ws[k + 1];
  }

  /** Opening a record for editing and submitting it unchanged writes back the same
      `issued_to`, for every name of one or more upper-case words separated by single blanks. */
  lemma {:induction false} ResaveKeepsName(ws: seq<string>)
    requires Words(ws)
    ensures var p := EditNames(Join(ws, ' '));
      FullName(p.first, p.middle, p.surname) == Join(ws, ' ')
  {
    SplitWords(ws);
    if |ws| == 1 {
      ResaveOneWord(ws);
    } else if |ws| == 2 {
      ResaveTwoWords(ws);
    } else {
      ResaveManyParts(ws);
      WithMiddleName(ws);
    }
  }

  lemma ResaveOneWord(ws: seq<string>)
    requires Words(ws) && |ws| == 1
    requires Split(Join(ws, ' '), ' ') == ws
    ensures EditNames(Join(ws, ' ')) == NameParts(ws[0], "", "")
    ensures FullName(ws[0], "", "") == Join(ws, ' ')
  {
    WordAt(ws, 0);
    UpperOfUpper(ws[0]);
    FirstNameOnly(ws[0]);
  }

  lemma ResaveTwoWords(ws: seq<string>)
    requires Words(ws) && |ws| == 2
    requires Split(Join(ws, ' '), ' ') == ws
    ensures EditNames(Join(ws, ' ')) == NameParts(ws[0], "", ws[1])
    ensures FullName(ws[0], "", ws[1]) == Join(ws, ' ')
  {
    WordAt(ws, 0);
    WordAt(ws, 1);
    UpperOfUpper(ws[0]);
    UpperOfUpper(ws[1]);
    JoinEnds(ws);
    WordsTail(ws);
    NoMiddleName(ws[0], ws[1..]);
    JoinCons(ws);
  }

  lemma ResaveManyParts(ws: seq<string>)
    requires Words(ws) && |ws| > 2
    requires Split(Join(ws, ' '), ' ') == ws
    ensures EditNames(Join(ws, ' ')) == NameParts(ws[0], ws[1], Join(ws[2..], ' '))
  {
    WordAt(ws, 0);
    WordAt(ws, 1);
    UpperOfUpper(ws[0]);
    UpperOfUpper(ws[1]);
    assert forall k :: 0 <= k < |ws[2..]| ==> ws[2..][k] == ws[k + 2];
    JoinUpper(ws[2..]);
    UpperOfUpper(Join(ws[2..], ' '));
    JoinEnds(ws);
  }

  /** With a middle name, splitting recovers the three fields: one word each for the first
      and middle name, any number of words for the surname. */
  lemma {:induction false} SplitRecoversFields(firstName: string, middleName: string, surname: seq<string>)
    requires |surname| >= 1 && Words([firstName, middleName] + surname)
    ensures EditNames(FullName(firstName, middleName, Join(surname, ' ')))
         == NameParts(firstName, middleName, Join(surname, ' '))
  {
    var ws := [firstName, middleName] + surname;
    assert ws[0] == firstName && ws[1] == middleName && ws[2..] == surname;
    WithMiddleName(ws);
    SplitWords(ws);
    ResaveManyParts(ws);
  }

  /** Without a middle name, a two-word surname comes back split: its first word lands in
      the middle-name field. The joined name, and so the stored record, is still the same
      (`ResaveKeepsName`). */
  lemma {:induction false} CompoundSurnameMovesToMiddle(ws: seq<string>)
    requires Words(ws) && |ws| == 3
    ensures FullName(ws[0], "", ws[1] + " " + ws[2]) == Join(ws, ' ')
    ensures EditNames(FullName(ws[0], "", ws[1] + " " + ws[2])) == NameParts(ws[0], ws[1], ws[2])
  {
    WordAt(ws, 0);
    WordsTail(ws);
    JoinCons(ws);
    JoinCons(ws[1..]);
    assert ws[1..][1..] == ws[2..];
    NoMiddleName(ws[0], ws[1..]);
    SplitWords(ws);
    ResaveManyParts(ws);
  }
}
