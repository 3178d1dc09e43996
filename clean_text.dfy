/**
  `clean_text` of the parsing, summarising and rating stages (identical copies in
  2_parse_content.py, 3_parse_summary.py, 3_rate_articles.py and 4_parse_summary.py):
  newlines become spaces, `" ".join(text.split())` collapses every run of whitespace into
  one space and drops it at both ends, and finally every character outside Python's
  `string.printable` is dropped.
*/
module TextCleaning {
  import opened Sublists

  /** Python's `str.isspace()`: the characters `str.split()` splits on. */
  predicate IsSpace(c: char) {
    var n := c as int;
    (9 <= n <= 13) || (28 <= n <= 32) || n == 0x85 || n == 0xA0 || n == 0x1680 ||
    (0x2000 <= n <= 0x200A) || n == 0x2028 || n == 0x2029 || n == 0x202F || n == 0x205F || n == 0x3000
  }

  /** Membership in Python's `string.printable`: ASCII 32..126 and the whitespace 9..13. */
  predicate IsPrintable(c: char) {
    var n := c as int;
    (32 <= n <= 126) || (9 <= n <= 13)
  }

  /** A character that `clean_text` keeps as it is: printable and not whitespace. */
  predicate IsVisible(c: char) {
    IsPrintable(c) && !IsSpace(c)
  }

  predicate NotSpace(c: char) {
    !IsSpace(c)
  }

  /** `re.sub(r'\n', ' ', text)`. */
  function NewlinesToSpaces(s: string): (r: string)
    ensures |r| == |s|
    ensures forall i :: 0 <= i < |s| ==> r[i] == if s[i] == '\n' then ' ' else s[i]
  {
    if s == [] then [] else [if s[0] == '\n' then ' ' else s[0]] + NewlinesToSpaces(s[1..])
  }

  /** Length of the leading run of non-whitespace characters. */
  function WordLen(s: string): (k: nat)
    ensures k <= |s|
    ensures forall i :: 0 <= i < k ==> !IsSpace(s[i])
    ensures k < |s| ==> IsSpace(s[k])
  {
    if s == [] || IsSpace(s[0]) then 0 else 1 + WordLen(s[1..])
  }

  /** `s.split()`: the maximal runs of non-whitespace characters. */
  function Words(s: string): (ws: seq<string>)
    ensures forall i :: 0 <= i < |ws| ==> ws[i] != [] && forall j :: 0 <= j < |ws[i]| ==> !IsSpace(ws[i][j])
    decreases |s|
  {
    if s == [] then []
    else if IsSpace(s[0]) then Words(s[1..])
    else
      var k := WordLen(s);
      [s[..k]] + Words(s[k..])
  }

  /** `" ".join(ws)`. */
  function Join(ws: seq<string>): string {
    if ws == [] then []
    else if |ws| == 1 then ws[0]
    else ws[0] + " " + Join(ws[1..])
  }

  function Concat(ws: seq<string>): string {
    if ws == [] then [] else ws[0] + Concat(ws[1..])
  }

  /** `clean_text(text_str)`. */
  function CleanText(s: string): string {
    Keep(Join(Words(NewlinesToSpaces(s))), IsPrintable)
  }

  /** No space at either end and never two spaces in a row. */
  predicate WellSpaced(t: string) {
    (t != [] ==> t[0] != ' ' && t[|t| - 1] != ' ') &&
    forall i :: 0 <= i < |t| - 1 ==> !(t[i] == ' ' && t[i + 1] == ' ')
  }

  /** Every character is printable and the only whitespace character is the space. */
  predicate PlainText(t: string) {
    forall i :: 0 <= i < |t| ==> IsPrintable(t[i]) && (IsSpace(t[i]) ==> t[i] == ' ')
  }

  predicate AllPrintable(s: string) {
    forall i :: 0 <= i < |s| ==> IsPrintable(s[i])
  }

  // ---------------------------------------------------------------- words

  /** Splitting and concatenating keeps exactly the non-whitespace characters. */
  lemma {:induction false} WordsConcat(s: string)
    ensures Concat(Words(s)) == Keep(s, NotSpace)
    decreases |s|
  {
    if s != [] {
      if IsSpace(s[0]) {
        WordsConcat(s[1..]);
      } else {
        var k := WordLen(s);
        WordsConcat(s[k..]);
        assert s == s[..k] + s[k..];
        KeepAppend(s[..k], s[k..], NotSpace);
        KeepAll(s[..k], NotSpace);
        assert Concat(Words(s)) == s[..k] + Concat(Words(s[k..]));
      }
    }
  }

  /** The separators of a join are spaces, which `IsVisible` drops. */
  lemma {:induction false} JoinVisible(ws: seq<string>)
    ensures Keep(Join(ws), IsVisible) == Keep(Concat(ws), IsVisible)
  {
    if |ws| == 1 {
      assert ws[1..] == [];
      assert Concat(ws) == ws[0] + [];
      assert ws[0] + [] == ws[0];
    } else if |ws| > 1 {
      JoinVisible(ws[1..]);
      KeepAppend(ws[0] + " ", Join(ws[1..]), IsVisible);
      KeepAppend(ws[0], " ", IsVisible);
      KeepAppend(ws[0], Concat(ws[1..]), IsVisible);
      assert Keep(" ", IsVisible) == [];
    }
  }

  lemma {:induction false} WordsLength(s: string)
    ensures |Join(Words(s))| <= |s|
    decreases |s|
  {
    if s != [] {
      if IsSpace(s[0]) {
        WordsLength(s[1..]);
      } else {
        var k := WordLen(s);
        var r := s[k..];
        WordsLength(r);
        if Words(r) != [] {
          assert r != [] && IsSpace(r[0]);
          assert Words(r) == Words(r[1..]);
          WordsLength(r[1..]);
        }
      }
    }
  }

  /** Joining non-empty space-free words gives text without stray spaces. */
  lemma {:induction false} JoinWellSpaced(ws: seq<string>)
    requires forall i :: 0 <= i < |ws| ==> ws[i] != [] && forall j :: 0 <= j < |ws[i]| ==> !IsSpace(ws[i][j])
    ensures WellSpaced(Join(ws))
    ensures forall i :: 0 <= i < |Join(ws)| ==> Join(ws)[i] == ' ' || !IsSpace(Join(ws)[i])
  {
    if |ws| > 1 {
      JoinWellSpaced(ws[1..]);
      var t := Join(ws[1..]);
      var j := ws[0] + " " + t;
      assert t != [] by { assert |t| >= |ws[1]| by { JoinLonger(ws[1..]); } }
      forall i | 0 <= i < |j| - 1 ensures !(j[i] == ' ' && j[i + 1] == ' ') {
        if i + 1 < |ws[0]| {
        } else if i + 1 == |ws[0]| {
        } else if i == |ws[0]| {
          assert j[i + 1] == t[0];
        } else {
          assert j[i] == t[i - |ws[0]| - 1] && j[i + 1] == t[i - |ws[0]|];
        }
      }
      forall i | 0 <= i < |j| ensures j[i] == ' ' || !IsSpace(j[i]) {
        if i > |ws[0]| {
          assert j[i] == t[i - |ws[0]| - 1];
        }
      }
    }
  }

  lemma {:induction false} JoinLonger(ws: seq<string>)
    requires ws != []
    ensures |Join(ws)| >= |ws[0]|
  {
  }

  // ---------------------------------------------------------------- clean_text

  /**
    Every character of the result is in `string.printable`, and the only whitespace
    character it contains is the space.
  */
  lemma CleanTextIsPlain(s: string)
    ensures PlainText(CleanText(s))
  {
    var j := Join(Words(NewlinesToSpaces(s)));
    JoinWellSpaced(Words(NewlinesToSpaces(s)));
    forall i | 0 <= i < |CleanText(s)| ensures IsPrintable(CleanText(s)[i]) && (IsSpace(CleanText(s)[i]) ==> CleanText(s)[i] == ' ') {
      KeepMembers(j, IsPrintable, CleanText(s)[i]);
    }
  }

  /**
    The non-space characters of the result are exactly the input's printable non-whitespace
    characters, in order, and the result is no longer than the input.
  */
  lemma CleanTextKeepsVisible(s: string)
    ensures Keep(CleanText(s), IsVisible) == Keep(s, IsVisible)
    ensures |CleanText(s)| <= |s|
  {
    var t := NewlinesToSpaces(s);
    var j := Join(Words(t));
    KeepKeep(j, IsPrintable, IsVisible);
    JoinVisible(Words(t));
    WordsConcat(t);
    KeepKeep(t, NotSpace, IsVisible);
    NewlinesInvisible(s);
    WordsLength(t);
  }

  lemma {:induction false} NewlinesInvisible(s: string)
    ensures Keep(NewlinesToSpaces(s), IsVisible) == Keep(s, IsVisible)
  {
    if s != [] {
      NewlinesInvisible(s[1..]);
      assert NewlinesToSpaces(s)[1..] == NewlinesToSpaces(s[1..]);
    }
  }

  /** For printable-ASCII input the result has no leading, trailing or doubled space. */
  lemma CleanTextWellSpaced(s: string)
    requires AllPrintable(s)
    ensures WellSpaced(CleanText(s))
  {
    var t := NewlinesToSpaces(s);
    var j := Join(Words(t));
    JoinWellSpaced(Words(t));
    forall i | 0 <= i < |j| ensures IsPrintable(j[i]) {
      if j[i] != ' ' {
        JoinMembers(Words(t), i);
        var w, k :| 0 <= w < |Words(t)| && 0 <= k < |Words(t)[w]| && Words(t)[w][k] == j[i];
        WordsMembers(t, w, k);
      }
    }
    KeepAll(j, IsPrintable);
  }

  lemma {:induction false} JoinMembers(ws: seq<string>, i: nat)
    requires i < |Join(ws)| && Join(ws)[i] != ' '
    ensures exists w, k :: 0 <= w < |ws| && 0 <= k < |ws[w]| && ws[w][k] == Join(ws)[i]
  {
    if |ws| == 1 {
      assert ws[0][i] == Join(ws)[i];
    } else {
      if i < |ws[0]| {
        assert ws[0][i] == Join(ws)[i];
      } else {
        assert i > |ws[0]|;
        var t := Join(ws[1..]);
        assert Join(ws)[i] == t[i - |ws[0]| - 1];
        JoinMembers(ws[1..], i - |ws[0]| - 1);
        var w, k :| 0 <= w < |ws[1..]| && 0 <= k < |ws[1..][w]| && ws[1..][w][k] == t[i - |ws[0]| - 1];
        assert ws[w + 1][k] == Join(ws)[i];
      }
    }
  }

  lemma {:induction false} WordsMembers(s: string, w: nat, k: nat)
    requires w < |Words(s)| && k < |Words(s)[w]|
    ensures exists i :: 0 <= i < |s| && s[i] == Words(s)[w][k]
    decreases |s|
  {
    if IsSpace(s[0]) {
      WordsMembers(s[1..], w, k);
      var i :| 0 <= i < |s[1..]| && s[1..][i] == Words(s[1..])[w][k];
      assert s[i + 1] == Words(s)[w][k];
    } else {
      var n := WordLen(s);
      if w == 0 {
        assert s[k] == Words(s)[w][k];
      } else {
        WordsMembers(s[n..], w - 1, k);
        var i :| 0 <= i < |s[n..]| && s[n..][i] == Words(s[n..])[w - 1][k];
        assert s[n + i] == Words(s)[w][k];
      }
    }
  }

  /** Well-spaced plain text is its own split-and-join. */
  lemma {:induction false} JoinWordsOfWellSpaced(t: string)
    requires WellSpaced(t) && PlainText(t)
    ensures Join(Words(t)) == t
    decreases |t|
  {
    if t != [] {
      var k := WordLen(t);
      if k < |t| {
        var rest := t[k + 1..];
        WellSpacedAfter(t, k);
        JoinWordsOfWellSpaced(rest);
        assert t[k..][0] == ' ' && t[k..][1..] == rest;
        assert Words(t) == [t[..k]] + Words(rest);
        assert t == t[..k] + " " + rest;
      } else {
        assert t[..k] == t;
        assert Words(t) == [t];
      }
    }
  }

  /** After a word of well-spaced plain text come one space and more well-spaced plain text. */
  lemma WellSpacedAfter(t: string, k: nat)
    requires WellSpaced(t) && PlainText(t) && k < |t| && IsSpace(t[k])
    ensures t[k] == ' '
    ensures var rest := t[k + 1..];
      rest != [] && !IsSpace(rest[0]) && WellSpaced(rest) && PlainText(rest)
  {
    var rest := t[k + 1..];
    forall i | 0 <= i < |rest| - 1 ensures !(rest[i] == ' ' && rest[i + 1] == ' ') {
      assert rest[i] == t[k + 1 + i] && rest[i + 1] == t[k + 2 + i];
    }
  }

  /** On printable-ASCII input a second `clean_text` changes nothing. */
  lemma CleanTextIdempotent(s: string)
    requires AllPrintable(s)
    ensures CleanText(CleanText(s)) == CleanText(s)
  {
    var c := CleanText(s);
    CleanTextIsPlain(s);
    CleanTextWellSpaced(s);
    assert NewlinesToSpaces(c) == c;
    JoinWordsOfWellSpaced(c);
    KeepAll(c, IsPrintable);
  }

  /**
    Non-printable characters (any non-ASCII letter, such as `é`) are dropped after the
    whitespace is collapsed, so the spaces around them survive: the result can hold two
    spaces in a row.
  */
  lemma DoubleSpaceAfterNonAscii(a: char, x: char, b: char)
    requires IsVisible(a) && IsVisible(b) && !IsPrintable(x) && !IsSpace(x)
    ensures CleanText([a, ' ', x, ' ', b]) == [a, ' ', ' ', b]
  {
    var t := [a, ' ', x, ' ', b];
    assert NewlinesToSpaces(t) == t by { NoNewlines(t); }
    ThreeWords(a, x, b);
    JoinThree(a, x, b);
    ThreeWordsFilter(a, x, b);
  }

  lemma NoNewlines(t: string)
    requires forall i :: 0 <= i < |t| ==> t[i] != '\n'
    ensures NewlinesToSpaces(t) == t
  {
  }

  /** A leading space is skipped by `split()`. */
  lemma WordsSpaceCons(r: string)
    ensures Words([' '] + r) == Words(r)
  {
    assert ([' '] + r)[1..] == r;
  }

  /** A one-character word followed by whitespace (or nothing) is split off on its own. */
  lemma WordsSingleCons(c: char, r: string)
    requires !IsSpace(c) && (r == [] || IsSpace(r[0]))
    ensures Words([c] + r) == [[c]] + Words(r)
  {
    var s := [c] + r;
    assert s[1..] == r;
    assert WordLen(s) == 1;
    assert s[..1] == [c];
  }

  /** Worked step of `DoubleSpaceAfterNonAscii`: `split()` of three one-character words separated by single spaces. */
  lemma ThreeWords(a: char, x: char, b: char)
    requires !IsSpace(a) && !IsSpace(x) && !IsSpace(b)
    ensures Words([a, ' ', x, ' ', b]) == [[a], [x], [b]]
  {
    var r2 := [' ', b];
    var r1 := [x] + r2;
    var r0 := [' '] + r1;
    assert [b] + [] == [b] && [' '] + [b] == r2;
    WordsSingleCons(b, []);
    WordsSpaceCons([b]);
    WordsSingleCons(x, r2);
    WordsSpaceCons(r1);
    WordsSingleCons(a, r0);
    assert [a] + r0 == [a, ' ', x, ' ', b];
  }

  /** Worked step of `DoubleSpaceAfterNonAscii`: `" ".join` of three one-character words. */
  lemma JoinThree(a: char, x: char, b: char)
    ensures Join([[a], [x], [b]]) == [a, ' ', x, ' ', b]
  {
    var ws := [[a], [x], [b]];
    assert ws[1..] == [[x], [b]] && ws[1..][1..] == [[b]];
    assert Join([[b]]) == [b];
    assert " " == [' '];
    assert Join([[x], [b]]) == [x] + " " + [b] == [x, ' ', b];
    assert Join(ws) == [a] + " " + [x, ' ', b] == [a, ' ', x, ' ', b];
  }

  /** Worked step of `DoubleSpaceAfterNonAscii`: the printable filter drops the non-printable middle character and keeps both spaces. */
  lemma ThreeWordsFilter(a: char, x: char, b: char)
    requires IsPrintable(a) && IsPrintable(b) && !IsPrintable(x)
    ensures Keep([a, ' ', x, ' ', b], IsPrintable) == [a, ' ', ' ', b]
  {
    var t := [a, ' ', x, ' ', b];
    assert Keep(t[4..], IsPrintable) == [b] by { assert t[4..][1..] == []; }
    assert Keep(t[3..], IsPrintable) == [' ', b] by { assert t[3..][1..] == t[4..]; }
    assert Keep(t[2..], IsPrintable) == [' ', b] by { assert t[2..][1..] == t[3..]; }
    assert Keep(t[1..], IsPrintable) == [' ', ' ', b] by { assert t[1..][1..] == t[2..]; }
  }
}
