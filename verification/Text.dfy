/** The string operations that the query router uses, over ASCII text. */
module Text {
  import opened Common

  function UpperChar(c: char): char {
    if 'a' <= c <= 'z' then c - 'a' + 'A' else c
  }

  function ToUpper(s: string): (r: string)
    ensures |r| == |s| && forall i :: 0 <= i < |s| ==> r[i] == UpperChar(s[i])
  {
    seq(|s|, i requires 0 <= i < |s| => UpperChar(s[i]))
  }

  lemma UpperAlphabet()
    ensures ToUpper("abcdefghijklm") == "ABCDEFGHIJKLM" && ToUpper("nopqrstuvwxyz") == "NOPQRSTUVWXYZ"
    ensures forall c: char :: c < 'a' || 'z' < c ==> ToUpper([c]) == [c]
  {
  }

  predicate MatchesAt(s: string, sub: string, i: nat) {
    i + |sub| <= |s| && s[i..i + |sub|] == sub
  }

  function IndexFrom(s: string, sub: string, i: nat): (r: Option<nat>)
    ensures r.Some? ==> i <= r.value && MatchesAt(s, sub, r.value)
    ensures r.Some? ==> forall j: nat :: i <= j < r.value ==> !MatchesAt(s, sub, j)
    ensures r.None? ==> forall j: nat :: i <= j ==> !MatchesAt(s, sub, j)
    decreases |s| - i
  {
    if i + |sub| > |s| then None
    else if MatchesAt(s, sub, i) then Some(i)
    else IndexFrom(s, sub, i + 1)
  }

  /** Position of the first occurrence. */
  function Index(s: string, sub: string): (r: Option<nat>)
    ensures r.Some? ==> MatchesAt(s, sub, r.value) && forall j: nat :: j < r.value ==> !MatchesAt(s, sub, j)
    ensures r.None? ==> forall j: nat :: !MatchesAt(s, sub, j)
  {
    IndexFrom(s, sub, 0)
  }

  const SPACES := " \t\n\U{B}\U{C}\r"

  predicate IsSpace(c: char) {
    c in SPACES
  }

  function TrimLeft(s: string, cut: string): string {
    if s != [] && s[0] in cut then TrimLeft(s[1..], cut) else s
  }

  function TrimRight(s: string, cut: string): string {
    if s != [] && s[|s| - 1] in cut then TrimRight(s[..|s| - 1], cut) else s
  }

  function Trim(s: string, cut: string): string {
    TrimRight(TrimLeft(s, cut), cut)
  }

  function TrimSpace(s: string): string {
    Trim(s, SPACES)
  }

  /** The pieces between the occurrences of a separator. */
  function Split(s: string, sep: string): seq<string>
    requires sep != []
    decreases |s|
  {
    match Index(s, sep)
    case None => [s]
    case Some(i) => [s[..i]] + Split(s[i + |sep|..], sep)
  }

  /** Pieces with a separator between them. */
  function Rejoin(pieces: seq<string>, sep: string): string
    requires pieces != []
  {
    if |pieces| == 1 then pieces[0] else pieces[0] + sep + Rejoin(pieces[1..], sep)
  }

  /** The pieces, with the separator between them, are the text, and no piece contains the separator. */
  lemma {:induction false} SplitLaw(s: string, sep: string)
    requires sep != []
    ensures Split(s, sep) != [] && Rejoin(Split(s, sep), sep) == s
    ensures forall k :: 0 <= k < |Split(s, sep)| ==> Index(Split(s, sep)[k], sep) == None
    decreases |s|
  {
    if i :| Index(s, sep) == Some(i) {
      var first, rest := s[..i], s[i + |sep|..];
      SplitLaw(rest, sep);
      assert s == first + sep + rest;
      assert Split(s, sep)[1..] == Split(rest, sep);
      forall j: nat
        ensures !MatchesAt(first, sep, j)
      {
        if j + |sep| <= i {
          assert !MatchesAt(s, sep, j) && first[j..j + |sep|] == s[j..j + |sep|];
        }
      }
    }
  }

  /** Length of the leading run of non-space characters. */
  function WordLength(s: string): (n: nat)
    ensures n <= |s| && forall i :: 0 <= i < n ==> !IsSpace(s[i])
    ensures n < |s| ==> IsSpace(s[n])
  {
    if s == [] || IsSpace(s[0]) then 0 else 1 + WordLength(s[1..])
  }

  /** The maximal runs of non-space characters. */
  function Fields(s: string): seq<string>
    decreases |s|
  {
    if s == [] then []
    else if IsSpace(s[0]) then Fields(s[1..])
    else [s[..WordLength(s)]] + Fields(s[WordLength(s)..])
  }

  // ---------------------------------------------------------------- decimal numbers

  predicate IsDigit(c: char) {
    48 <= c as int <= 57
  }

  function DigitChar(d: nat): char
    requires d < 10
  {
    (48 + d) as char
  }

  function DigitValue(c: char): nat
    requires IsDigit(c)
  {
    c as int - 48
  }

  function Digits(n: nat): (r: string)
    ensures r != [] && forall i :: 0 <= i < |r| ==> IsDigit(r[i])
  {
    if n < 10 then [DigitChar(n)] else Digits(n / 10) + [DigitChar(n % 10)]
  }

  function Decimal(n: int): string {
    if n < 0 then "-" + Digits(-n) else Digits(n)
  }

  /** Value of a digit string, continuing from acc. */
  function ParseDigits(s: string, acc: nat): nat {
    if s == [] || !IsDigit(s[0]) then acc else ParseDigits(s[1..], 10 * acc + DigitValue(s[0]))
  }

  /** The range of a 64-bit integer. */
  predicate IsInt64(n: int) {
    -0x8000_0000_0000_0000 <= n < 0x8000_0000_0000_0000
  }

  /**
   * The integer at the front, after blanks. Scanning fails, and leaves 0, at a newline, when there
   * are no digits, and when the number does not fit 64 bits.
   */
  function ScanInt(s: string): int {
    if s != [] && s[0] == '\n' then 0
    else if s != [] && IsSpace(s[0]) then ScanInt(s[1..])
    else
      var negative := s != [] && s[0] == '-';
      var digits := ParseDigits(if negative || (s != [] && s[0] == '+') then s[1..] else s, 0);
      var n := if negative then 0 - digits else digits as int;
      if IsInt64(n) then n else 0
  }

  lemma {:induction false} ParseDigitsAppend(a: string, b: string, acc: nat)
    requires forall i :: 0 <= i < |a| ==> IsDigit(a[i])
    ensures ParseDigits(a + b, acc) == ParseDigits(b, ParseDigits(a, acc))
  {
    if a == [] {
      assert a + b == b;
    } else {
      ParseDigitsAppend(a[1..], b, 10 * acc + DigitValue(a[0]));
      assert (a + b)[1..] == a[1..] + b;
    }
  }

  lemma {:induction false} DigitsRoundTrip(n: nat)
    ensures ParseDigits(Digits(n), 0) == n
  {
    if n >= 10 {
      DigitsRoundTrip(n / 10);
      ParseDigitsAppend(Digits(n / 10), [DigitChar(n % 10)], 0);
      assert [DigitChar(n % 10)][1..] == [];
    }
  }

  /** Scanning what was printed gives the number back. */
  lemma DecimalRoundTrip(n: int)
    requires IsInt64(n)
    ensures ScanInt(" " + Decimal(n)) == n
  {
    DigitsRoundTrip(if n < 0 then -n else n);
    assert (" " + Decimal(n))[1..] == Decimal(n);
    if n < 0 { assert Decimal(n)[1..] == Digits(-n); }
  }

  // ---------------------------------------------------------------- words

  predicate SpaceFree(w: string) {
    forall i :: 0 <= i < |w| ==> !IsSpace(w[i])
  }

  predicate IsWord(w: string) {
    w != [] && SpaceFree(w)
  }

  /** Words with one blank between them. */
  function Join(ws: seq<string>): string
    requires ws != []
  {
    if |ws| == 1 then ws[0] else ws[0] + " " + Join(ws[1..])
  }

  ghost predicate AllWords(ws: seq<string>) {
    ws != [] && forall i :: 0 <= i < |ws| ==> IsWord(ws[i])
  }

  lemma IndexUnique(s: string, w: string, r: Option<nat>)
    requires r.Some? ==> MatchesAt(s, w, r.value) && forall j: nat :: j < r.value ==> !MatchesAt(s, w, j)
    requires r.None? ==> forall j: nat :: !MatchesAt(s, w, j)
    ensures Index(s, w) == r
  {
  }

  /** A word without blanks occurs either before or after a blank, not across it. */
  lemma IndexAcrossBlank(a: string, b: string, w: string)
    requires IsWord(w)
    ensures Index(a + " " + b, w) ==
            match Index(a, w)
            case Some(i) => Some(i)
            case None =>
              match Index(b, w)
              case Some(i) => Some(|a| + 1 + i)
              case None => None
  {
    var s := a + " " + b;
    assert s[|a| + 1..] == b && IsSpace(' ');
    forall j: nat
      ensures MatchesAt(s, w, j) <==> MatchesAt(a, w, j) || (j >= |a| + 1 && MatchesAt(b, w, j - |a| - 1))
    {
      if j + |w| <= |a| {
        assert s[j..j + |w|] == a[j..j + |w|];
      } else if j >= |a| + 1 {
        if j + |w| <= |s| { assert s[j..j + |w|] == s[|a| + 1..][j - |a| - 1..j - |a| - 1 + |w|]; }
      } else if j + |w| <= |s| {
        assert s[j..j + |w|][|a| - j] == ' ';
      }
    }
    IndexUnique(s, w, match Index(a, w) case Some(i) => Some(i) case None =>
      match Index(b, w) case Some(i) => Some(|a| + 1 + i) case None => None);
  }

  lemma FirstBlank(a: string, b: string)
    requires Index(a, " ") == None
    ensures Index(a + " " + b, " ") == Some(|a|)
  {
    var s := a + " " + b;
    forall j: nat | j < |a|
      ensures !MatchesAt(s, " ", j)
    {
      assert !MatchesAt(a, " ", j);
      assert s[j..j + 1] == a[j..j + 1];
    }
    assert s[|a|..|a| + 1] == [s[|a|]] == " ";
    IndexUnique(s, " ", Some(|a|));
  }

  /** Where word k begins. */
  function Offset(ws: seq<string>, k: nat): nat
    requires k <= |ws|
  {
    if k == 0 then 0 else |ws[0]| + 1 + Offset(ws[1..], k - 1)
  }

  function IndexOfJoin(ws: seq<string>, w: string): Option<nat>
    requires ws != []
  {
    match Index(ws[0], w)
    case Some(i) => Some(i)
    case None =>
      if |ws| == 1 then None
      else
        match IndexOfJoin(ws[1..], w)
        case None => None
        case Some(i) => Some(|ws[0]| + 1 + i)
  }

  /** The first occurrence of a word is in the first of the words that contains it. */
  lemma {:induction false} IndexInJoin(ws: seq<string>, w: string)
    requires ws != [] && IsWord(w)
    ensures Index(Join(ws), w) == IndexOfJoin(ws, w)
  {
    if |ws| > 1 {
      IndexInJoin(ws[1..], w);
      IndexAcrossBlank(ws[0], Join(ws[1..]), w);
    }
  }

  lemma {:induction false} AfterWord(ws: seq<string>, k: nat)
    requires k + 1 < |ws|
    ensures Offset(ws, k) + |ws[k]| <= |Join(ws)|
    ensures Join(ws)[Offset(ws, k) + |ws[k]|..] == " " + Join(ws[k + 1..])
  {
    if k > 0 {
      AfterWord(ws[1..], k - 1);
      assert ws[1..][k..] == ws[k + 1..];
      assert Join(ws)[|ws[0]| + 1..] == Join(ws[1..]);
    }
  }

  function UpperAll(ws: seq<string>): seq<string> {
    seq(|ws|, i requires 0 <= i < |ws| => ToUpper(ws[i]))
  }

  lemma {:induction false} UpperOfJoin(ws: seq<string>)
    requires ws != []
    ensures ToUpper(Join(ws)) == Join(UpperAll(ws))
  {
    if |ws| > 1 {
      UpperOfJoin(ws[1..]);
      assert UpperAll(ws)[1..] == UpperAll(ws[1..]);
    }
  }

  lemma {:induction false} JoinEnds(ws: seq<string>)
    requires AllWords(ws)
    ensures Join(ws) != [] && !IsSpace(Join(ws)[0]) && !IsSpace(Join(ws)[|Join(ws)| - 1])
  {
    if |ws| > 1 { JoinEnds(ws[1..]); }
  }

  /** Nothing is trimmed from a text with neither end in the cut set. */
  lemma TrimNothing(s: string, cut: string)
    requires s != [] && s[0] !in cut && s[|s| - 1] !in cut
    ensures TrimLeft(s, cut) == s && TrimRight(s, cut) == s && Trim(s, cut) == s
  {
  }

  /** Trimming c and s, when s loses n characters on the left and none on the right. */
  lemma TrimSuffix(c: char, s: string, n: nat, cut: string)
    requires c in cut && n < |s| && TrimLeft(s, cut) == s[n..] && s[|s| - 1] !in cut
    ensures Trim([c] + s, cut) == s[n..]
  {
    assert ([c] + s)[1..] == s;
    var r := s[n..];
    assert r[|r| - 1] == s[|s| - 1];
    assert TrimRight(r, cut) == r;
  }

  /** Blanks in front are all that trimming removes. */
  lemma TrimPadded(s: string)
    requires s != [] && !IsSpace(s[0]) && !IsSpace(s[|s| - 1])
    ensures TrimSpace(" " + s) == s == TrimSpace(s)
  {
    TrimNothing(s, SPACES);
    assert (" " + s)[1..] == s;
    assert SPACES[0] == ' ';
    assert (" " + s)[0] in SPACES;
    assert TrimLeft(" " + s, SPACES) == TrimLeft((" " + s)[1..], SPACES);
  }

  lemma TrimJoin(ws: seq<string>)
    requires AllWords(ws)
    ensures TrimSpace(" " + Join(ws)) == Join(ws) == TrimSpace(Join(ws))
  {
    JoinEnds(ws);
    TrimPadded(Join(ws));
  }

  /** What trimming on the left removes. */
  lemma {:induction false} TrimLeftDrops(s: string, cut: string) returns (n: nat)
    ensures n <= |s| && TrimLeft(s, cut) == s[n..]
    ensures (forall i :: 0 <= i < n ==> s[i] in cut) && (n < |s| ==> s[n] !in cut)
  {
    if s != [] && s[0] in cut {
      n := TrimLeftDrops(s[1..], cut);
      assert forall i :: 0 <= i < n ==> s[1..][i] == s[i + 1];
      n := n + 1;
    } else {
      n := 0;
    }
  }

  lemma {:induction false} TrimRightDrops(s: string, cut: string) returns (n: nat)
    ensures n <= |s| && TrimRight(s, cut) == s[..n] && (n > 0 ==> s[n - 1] !in cut)
  {
    if s != [] && s[|s| - 1] in cut {
      n := TrimRightDrops(s[..|s| - 1], cut);
      assert s[..|s| - 1][..n] == s[..n];
    } else {
      n := |s|;
      assert s[..n] == s;
    }
  }

  /** A trimmed text is a part of the text that neither begins nor ends in the cut set. */
  lemma TrimmedPart(s: string, cut: string) returns (i: nat, j: nat)
    ensures i <= j <= |s| && Trim(s, cut) == s[i..j]
    ensures i < j ==> s[i] !in cut && s[j - 1] !in cut
  {
    i := TrimLeftDrops(s, cut);
    var n := TrimRightDrops(s[i..], cut);
    j := i + n;
    assert s[i..][..n] == s[i..j];
  }

  lemma {:induction false} WordLengthAt(w: string, rest: string)
    requires SpaceFree(w) && (rest == [] || IsSpace(rest[0]))
    ensures WordLength(w + rest) == |w|
  {
    if w == [] {
      assert w + rest == rest;
    } else {
      WordLengthAt(w[1..], rest);
      assert (w + rest)[1..] == w[1..] + rest;
    }
  }

  lemma {:induction false} FieldsOfJoin(ws: seq<string>)
    requires AllWords(ws)
    ensures Fields(Join(ws)) == ws
  {
    var w := ws[0];
    var rest := if |ws| == 1 then "" else " " + Join(ws[1..]);
    WordLengthAt(w, rest);
    assert Join(ws) == w + rest;
    assert Fields(w + rest) == [w] + Fields(rest);
    if |ws| > 1 {
      assert rest[1..] == Join(ws[1..]);
      FieldsOfJoin(ws[1..]);
    }
  }

  lemma UpperConcat(a: string, b: string)
    ensures ToUpper(a + b) == ToUpper(a) + ToUpper(b)
  {
  }

  /** Digits end at the first other character. */
  lemma {:induction false} ParseDigitsStops(a: string, b: string, acc: nat)
    requires b != [] && !IsDigit(b[0])
    ensures ParseDigits(a + b, acc) == ParseDigits(a, acc)
  {
    if a == [] {
      assert a + b == b;
    } else if IsDigit(a[0]) {
      ParseDigitsStops(a[1..], b, 10 * acc + DigitValue(a[0]));
      assert (a + b)[1..] == a[1..] + b;
    }
  }
}
