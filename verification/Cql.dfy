/** The query text that the unified service prints and the router parses. */
module Cql {
  import opened Common
  import opened Text

  datatype Condition = Condition(column: string, operator: string)

  datatype WhereClause = WhereClause(conditions: seq<Condition>, combineOp: string)

  datatype VectorClause = VectorClause(column: string, topK: int)

  datatype Query = Query(
    select: seq<string>,
    from: string,
    where_: Option<WhereClause>,
    vector: Option<VectorClause>,
    limit: int
  )

  const CUTSET := " \t\r\n;"

  // ---------------------------------------------------------------- the parser

  /** The name at the front of what follows FROM. */
  function NameOf(rest: string): string {
    match Index(rest, " ")
    case Some(end) => Trim(rest[..end], CUTSET)
    case None => Trim(rest, CUTSET)
  }

  function ParseFrom(cql: string): string {
    match Index(ToUpper(cql), "FROM")
    case None => ""
    case Some(idx) => NameOf(TrimSpace(cql[idx + 4..]))
  }

  /** The keywords cannot overlap, so the columns lie between them. */
  lemma KeywordsApart(upper: string, i: nat, j: nat)
    requires MatchesAt(upper, "SELECT", i) && MatchesAt(upper, "FROM", j) && j > i
    ensures i + 6 <= j
  {
    assert upper[j] == upper[j..j + 4][0] == 'F';
    assert forall k :: 0 <= k < 6 ==> upper[i + k] == upper[i..i + 6][k] == "SELECT"[k] != 'F';
  }

  function TrimAll(ss: seq<string>): seq<string> {
    seq(|ss|, i requires 0 <= i < |ss| => TrimSpace(ss[i]))
  }

  function ParseSelect(cql: string): seq<string> {
    var upper := ToUpper(cql);
    match (Index(upper, "SELECT"), Index(upper, "FROM"))
    case (Some(idx), Some(fromIdx)) =>
      if fromIdx > idx then
        KeywordsApart(upper, idx, fromIdx);
        TrimAll(Split(cql[idx + 6..fromIdx], ","))
      else []
    case _ => []
  }

  function ConditionsOf(pieces: seq<string>): seq<Condition> {
    if pieces == [] then []
    else
      var parts := Fields(TrimSpace(pieces[|pieces| - 1]));
      ConditionsOf(pieces[..|pieces| - 1]) + if |parts| >= 3 then [Condition(parts[0], parts[1])] else []
  }

  function ParseWhere(cql: string): Option<WhereClause> {
    match Index(ToUpper(cql), "WHERE")
    case None => None
    case Some(idx) => Some(WhereClause(ConditionsOf(Split(cql[idx + 5..], "AND")), "AND"))
  }

  function ParseLimit(cql: string): int {
    match Index(ToUpper(cql), "LIMIT")
    case None => 0
    case Some(idx) => ScanInt(cql[idx + 5..])
  }

  function Parsed(cql: string): Query {
    Query(ParseSelect(cql), ParseFrom(cql), ParseWhere(cql), None, ParseLimit(cql))
  }

  method TrimColumns(cols: seq<string>) returns (columns: seq<string>)
    ensures columns == TrimAll(cols)
  {
    columns := [];
    for i := 0 to |cols|
      invariant columns == TrimAll(cols[..i])
    {
      columns := columns + [TrimSpace(cols[i])];
    }
    assert cols[..|cols|] == cols;
  }

  method CollectConditions(pieces: seq<string>) returns (conditions: seq<Condition>)
    ensures conditions == ConditionsOf(pieces)
  {
    conditions := [];
    for i := 0 to |pieces|
      invariant conditions == ConditionsOf(pieces[..i])
    {
      assert pieces[..i + 1][..i] == pieces[..i];
      var parts := Fields(TrimSpace(pieces[i]));
      if |parts| >= 3 {
        conditions := conditions + [Condition(parts[0], parts[1])];
      }
    }
    assert pieces[..|pieces|] == pieces;
  }

  /** Fill a query clause by clause. */
  method ParseCQL(cql: string) returns (query: Query)
    ensures query == Parsed(cql)
  {
    hide Index, ToUpper, Split, Fields, ScanInt, Trim, TrimSpace, ConditionsOf, TrimAll;
    query := Query([], "", None, None, 0);
    var upper := ToUpper(cql);
    var from := Index(upper, "FROM");
    if from.Some? {
      var rest := TrimSpace(cql[from.value + 4..]);
      var end := Index(rest, " ");
      if end.Some? {
        query := query.(from := Trim(rest[..end.value], CUTSET));
      } else {
        query := query.(from := Trim(rest, CUTSET));
      }
    }
    var select := Index(upper, "SELECT");
    if select.Some? && from.Some? && from.value > select.value {
      KeywordsApart(upper, select.value, from.value);
      var columns := TrimColumns(Split(cql[select.value + 6..from.value], ","));
      query := query.(select := columns);
    }
    var clause := Index(upper, "WHERE");
    if clause.Some? {
      var conditions := CollectConditions(Split(cql[clause.value + 5..], "AND"));
      query := query.(where_ := Some(WhereClause(conditions, "AND")));
    }
    var limit := Index(upper, "LIMIT");
    if limit.Some? {
      query := query.(limit := ScanInt(cql[limit.value + 5..]));
    }
  }

  // ---------------------------------------------------------------- the printer

  function DefaultLimit(k: int): int {
    if k <= 0 then 100 else k
  }

  function ScanText(table: string, topK: int): string {
    "SELECT * FROM " + table + " LIMIT " + Decimal(DefaultLimit(topK))
  }

  function VectorSearchText(table: string, topK: int): string {
    "SELECT * FROM " + table + (" WHERE embedding SIMILAR TO :q" + " LIMIT ") + Decimal(DefaultLimit(topK))
  }

  function TextSearchText(table: string, topK: int): string {
    "SELECT * FROM " + table + (" WHERE embedding SIMILAR TO :q" + " WITH THRESHOLD 0.8" + " LIMIT ") + Decimal(topK)
  }

  // ---------------------------------------------------------------- keywords among words

  /** Upper case and positions are those of the router only for text of this kind. */
  predicate IsAscii(t: string) {
    forall i :: 0 <= i < |t| ==> t[i] as int < 128
  }

  /** A name without blanks, that trimming leaves alone and in which no keyword is hidden. */
  predicate ReadableName(t: string) {
    && t != [] && ' ' !in t
    && t[0] !in SPACES && t[0] !in CUTSET && t[|t| - 1] !in CUTSET
    && Index(ToUpper(t), "WHERE") == None && Index(ToUpper(t), "LIMIT") == None
  }

  /** A keyword with a letter that a word lacks is not in that word. */
  lemma LacksLetter(w: string, kw: string, k: nat)
    requires k < |kw| && forall i :: 0 <= i < |w| ==> w[i] != kw[k]
    ensures Index(w, kw) == None
  {
    forall j: nat
      ensures !MatchesAt(w, kw, j)
    {
      assert j + |kw| <= |w| ==> w[j..j + |kw|][k] == w[j + k];
    }
  }

  /** No word of ws contains the keyword, in upper case. */
  ghost predicate Avoids(ws: seq<string>, kw: string) {
    forall j :: 0 <= j < |ws| ==> Index(ToUpper(ws[j]), kw) == None
  }

  lemma UpperKeywords()
    ensures ToUpper("SELECT") == "SELECT" && ToUpper("FROM") == "FROM"
    ensures ToUpper("WHERE") == "WHERE" && ToUpper("LIMIT") == "LIMIT"
    ensures IsWord("SELECT") && IsWord("FROM") && IsWord("WHERE") && IsWord("LIMIT") && IsWord("AND")
  {
  }

  lemma {:induction false} FirstWordWith(ws: seq<string>, kw: string, k: nat)
    requires k < |ws| && Avoids(ws[..k], kw) && ToUpper(ws[k]) == kw
    ensures IndexOfJoin(UpperAll(ws), kw) == Some(Offset(ws, k))
  {
    assert UpperAll(ws)[0] == ToUpper(ws[0]);
    if k == 0 {
      assert MatchesAt(kw, kw, 0);
      IndexUnique(kw, kw, Some(0));
    } else {
      assert ws[..k][0] == ws[0];
      assert ws[1..][..k - 1] == ws[..k][1..];
      FirstWordWith(ws[1..], kw, k - 1);
      assert UpperAll(ws)[1..] == UpperAll(ws[1..]);
    }
  }

  lemma {:induction false} NoWordWith(ws: seq<string>, kw: string)
    requires ws != [] && Avoids(ws, kw)
    ensures IndexOfJoin(UpperAll(ws), kw) == None
  {
    assert UpperAll(ws)[0] == ToUpper(ws[0]);
    if |ws| > 1 {
      NoWordWith(ws[1..], kw);
      assert UpperAll(ws)[1..] == UpperAll(ws[1..]);
    }
  }

  /** A keyword that is a word of its own is found there, and the rest of the text follows it. */
  lemma KeywordFound(ws: seq<string>, kw: string, k: nat)
    requires IsWord(kw) && k + 1 < |ws| && Avoids(ws[..k], kw) && ToUpper(ws[k]) == kw
    ensures Index(ToUpper(Join(ws)), kw) == Some(Offset(ws, k))
    ensures Offset(ws, k) + |kw| <= |Join(ws)|
    ensures Join(ws)[Offset(ws, k) + |kw|..] == " " + Join(ws[k + 1..])
  {
    UpperOfJoin(ws);
    IndexInJoin(UpperAll(ws), kw);
    FirstWordWith(ws, kw, k);
    AfterWord(ws, k);
  }

  lemma KeywordMissing(ws: seq<string>, kw: string)
    requires ws != [] && IsWord(kw) && Avoids(ws, kw)
    ensures Index(ToUpper(Join(ws)), kw) == None
  {
    UpperOfJoin(ws);
    IndexInJoin(UpperAll(ws), kw);
    NoWordWith(ws, kw);
  }

  /** Fixed words without the given keyword. */
  lemma FixedWord(w: string, kw: string, k: nat)
    requires k < |kw| && forall i :: 0 <= i < |w| ==> UpperChar(w[i]) != kw[k]
    ensures Index(ToUpper(w), kw) == None
  {
    LacksLetter(ToUpper(w), kw, k);
  }

  lemma DecimalWord(n: int)
    ensures IsWord(Decimal(n))
    ensures forall i :: 0 <= i < |Decimal(n)| ==> IsDigit(Decimal(n)[i]) || Decimal(n)[i] == '-'
  {
  }

  lemma NameStays(t: string)
    requires ReadableName(t)
    ensures Trim(t, CUTSET) == t && Index(t, " ") == None
  {
    TrimNothing(t, CUTSET);
    assert ' ' !in t;
    LacksLetter(t, " ", 0);
  }

  // ---------------------------------------------------------------- the round trip

  lemma {:induction false} JoinAppend(a: seq<string>, b: seq<string>)
    requires a != [] && b != []
    ensures Join(a + b) == Join(a) + " " + Join(b)
  {
    if |a| == 1 {
      assert (a + b)[1..] == b;
    } else {
      JoinAppend(a[1..], b);
      assert (a + b)[1..] == a[1..] + b;
    }
  }

  lemma JoinOne(w: string)
    ensures Join([w]) == w
  {
  }

  lemma JoinMany(ws: seq<string>)
    requires |ws| > 1
    ensures Join(ws) == ws[0] + " " + Join(ws[1..])
    ensures forall k: nat :: k < |ws| ==> Offset(ws, k + 1) == |ws[0]| + 1 + Offset(ws[1..], k)
  {
  }

  /** The words of a query: a clause, possibly empty, between the table and the limit. */
  function Words(table: string, clause: seq<string>, limit: int): seq<string> {
    ["SELECT", "*", "FROM", table] + clause + ["LIMIT", Decimal(limit)]
  }

  const NEAREST := ["WHERE", "embedding", "SIMILAR", "TO", ":q"]

  const THRESHOLD := NEAREST + ["WITH", "THRESHOLD", "0.8"]

  lemma SimilarText()
    ensures Join(["SIMILAR", "TO", ":q"]) == "SIMILAR TO :q"
  {
  }

  lemma NearestText()
    ensures Join(NEAREST) == "WHERE embedding SIMILAR TO :q"
  {
    assert Join(["WHERE", "embedding"]) == "WHERE embedding";
    SimilarText();
    hide Join;
    JoinAppend(["WHERE", "embedding"], ["SIMILAR", "TO", ":q"]);
    assert NEAREST == ["WHERE", "embedding"] + ["SIMILAR", "TO", ":q"];
  }

  lemma ThresholdText()
    ensures Join(THRESHOLD) == "WHERE embedding SIMILAR TO :q" + " " + "WITH THRESHOLD 0.8"
  {
    NearestText();
    assert Join(["WITH", "THRESHOLD", "0.8"]) == "WITH THRESHOLD 0.8";
    hide Join;
    JoinAppend(NEAREST, ["WITH", "THRESHOLD", "0.8"]);
  }

  lemma HeaderText(t: string)
    ensures Join(["SELECT", "*", "FROM", t]) == "SELECT * FROM " + t
  {
    assert Join(["SELECT", "*", "FROM"]) == "SELECT * FROM";
    assert Join([t]) == t;
    hide Join;
    JoinAppend(["SELECT", "*", "FROM"], [t]);
    assert ["SELECT", "*", "FROM"] + [t] == ["SELECT", "*", "FROM", t];
  }

  lemma WordsText(t: string, clause: seq<string>, n: int)
    ensures Join(Words(t, clause, n)) ==
            "SELECT * FROM " + t + ((if clause == [] then "" else " " + Join(clause)) + " LIMIT ") + Decimal(n)
  {
    var head, tail := ["SELECT", "*", "FROM", t], ["LIMIT", Decimal(n)];
    HeaderText(t);
    assert Join(tail) == "LIMIT" + " " + Decimal(n);
    hide Join, Decimal;
    if clause != [] {
      JoinAppend(head, clause);
    } else {
      assert head + clause == head;
    }
    JoinAppend(head + clause, tail);
    assert " LIMIT " == " " + "LIMIT" + " ";
  }

  lemma ClauseText()
    ensures " WHERE embedding SIMILAR TO :q" == " " + "WHERE embedding SIMILAR TO :q"
    ensures " WITH THRESHOLD 0.8" == " " + "WITH THRESHOLD 0.8"
  {
  }

  /** The printed texts are words with single blanks between them. */
  lemma PrintedWords(t: string, k: int)
    ensures ScanText(t, k) == Join(Words(t, [], DefaultLimit(k)))
    ensures VectorSearchText(t, k) == Join(Words(t, NEAREST, DefaultLimit(k)))
    ensures TextSearchText(t, k) == Join(Words(t, THRESHOLD, k))
  {
    WordsText(t, [], DefaultLimit(k));
    WordsText(t, NEAREST, DefaultLimit(k));
    WordsText(t, THRESHOLD, k);
    NearestText();
    ThresholdText();
    ClauseText();
    hide Join, Words, Decimal;
    assert " " + ("WHERE embedding SIMILAR TO :q" + " " + "WITH THRESHOLD 0.8") ==
           " " + "WHERE embedding SIMILAR TO :q" + (" " + "WITH THRESHOLD 0.8");
  }

  /** The words before the clause hide no keyword. */
  lemma HeaderAvoids(t: string)
    requires ReadableName(t)
    ensures Avoids(["SELECT", "*"], "FROM")
    ensures Avoids(["SELECT", "*", "FROM", t], "WHERE") && Avoids(["SELECT", "*", "FROM", t], "LIMIT")
  {
    hide Index, ToUpper;
    FixedWord("SELECT", "FROM", 0);
    FixedWord("*", "FROM", 0);
    FixedWord("SELECT", "WHERE", 1);
    FixedWord("*", "WHERE", 1);
    FixedWord("FROM", "WHERE", 1);
    FixedWord("SELECT", "LIMIT", 1);
    FixedWord("*", "LIMIT", 1);
    FixedWord("FROM", "LIMIT", 1);
  }

  ghost predicate Clause(clause: seq<string>) {
    (clause == [] || AllWords(clause)) && Avoids(clause, "LIMIT")
  }

  /** The words behind the first one of a clause. */
  lemma TailWords(clause: seq<string>, n: int)
    requires AllWords(clause)
    ensures AllWords(clause[1..] + ["LIMIT", Decimal(n)])
  {
    DecimalWord(n);
    UpperKeywords();
    hide IsWord, Decimal;
    var ws := clause[1..] + ["LIMIT", Decimal(n)];
    forall j | 0 <= j < |ws|
      ensures IsWord(ws[j])
    {
      if j < |clause| - 1 { assert ws[j] == clause[j + 1]; }
    }
  }

  lemma SelectFirst(rest: string)
    ensures Index(ToUpper("SELECT * " + rest), "SELECT") == Some(0)
  {
    hide Index;
    var cql := "SELECT * " + rest;
    forall i | 0 <= i < 6
      ensures ToUpper(cql)[i] == "SELECT"[i]
    {
      assert cql[i] == "SELECT"[i];
    }
    assert ToUpper(cql)[0..6] == "SELECT";
    hide ToUpper;
    IndexUnique(ToUpper(cql), "SELECT", Some(0));
  }

  lemma SelectPosition(ws: seq<string>)
    requires |ws| > 2 && ws[0] == "SELECT" && ws[1] == "*"
    ensures Index(ToUpper(Join(ws)), "SELECT") == Some(0)
    ensures Offset(ws, 2) == 9 && Join(ws) == "SELECT * " + Join(ws[2..])
  {
    JoinMany(ws);
    JoinMany(ws[1..]);
    SelectFirst(Join(ws[2..]));
    assert Offset(ws[2..], 0) == 0;
    hide *;
    assert ws[1..][1..] == ws[2..];
    assert "SELECT" + " " + ("*" + " " + Join(ws[2..])) == "SELECT * " + Join(ws[2..]);
    assert Offset(ws, 1 + 1) == 7 + Offset(ws[1..], 1);
    assert Offset(ws[1..], 0 + 1) == 2 + Offset(ws[1..][1..], 0);
  }

  lemma SelectList(cql: string, rest: string)
    requires Index(ToUpper(cql), "SELECT") == Some(0) && Index(ToUpper(cql), "FROM") == Some(9)
    requires cql == "SELECT * " + rest
    ensures ParseSelect(cql) == ["*"]
  {
    hide Index, ToUpper;
    assert cql[6..9] == " * ";
    LacksLetter(" * ", ",", 0);
    assert Split(" * ", ",") == [" * "];
    assert TrimLeft(" * ", SPACES) == "* ";
    assert TrimRight("* ", SPACES) == "*";
    assert TrimAll([" * "]) == ["*"];
  }

  lemma SelectOfWords(t: string, clause: seq<string>, n: int)
    requires ReadableName(t) && Clause(clause)
    ensures ParseSelect(Join(Words(t, clause, n))) == ["*"]
  {
    UpperKeywords();
    hide Index, ToUpper, Join, ReadableName, Clause, Avoids, Trim, TrimSpace, Split, IsWord;
    var ws := Words(t, clause, n);
    var cql := Join(ws);
    HeaderAvoids(t);
    SelectPosition(ws);
    assert ws[..2] == ["SELECT", "*"];
    KeywordFound(ws, "FROM", 2);
    SelectList(cql, Join(ws[2..]));
  }

  lemma {:induction false} LastOfJoin(ws: seq<string>)
    requires ws != [] && ws[|ws| - 1] != []
    ensures Join(ws) != [] && Join(ws)[|Join(ws)| - 1] == ws[|ws| - 1][|ws[|ws| - 1]| - 1]
  {
    if |ws| > 1 { LastOfJoin(ws[1..]); }
  }

  lemma WordsBehindFrom(t: string, clause: seq<string>, n: int)
    ensures var ws := Words(t, clause, n);
      && |ws| > 3 && ws[..2] == ["SELECT", "*"] && ws[2] == "FROM" && Offset(ws, 2) == 9
      && ws[3..] == [t] + (clause + ["LIMIT", Decimal(n)])
  {
    hide Decimal;
    var ws := Words(t, clause, n);
    assert Offset(ws[1..], 1) == 2;
  }

  /** What follows FROM, with the words behind the table. */
  lemma AfterFrom(t: string, clause: seq<string>, n: int) returns (more: string)
    ensures var cql := Join(Words(t, clause, n));
      Index(ToUpper(cql), "FROM") == Some(9) && 13 <= |cql| && cql[13..] == " " + (t + " " + more)
    ensures more != [] && !IsSpace(more[|more| - 1])
    ensures clause == [] ==> more == "LIMIT" + " " + Decimal(n)
  {
    UpperKeywords();
    DecimalWord(n);
    FixedWord("SELECT", "FROM", 0);
    FixedWord("*", "FROM", 0);
    hide Index, ToUpper, Decimal, Join, Words, IsSpace, Offset;
    var ws, left := Words(t, clause, n), clause + ["LIMIT", Decimal(n)];
    WordsBehindFrom(t, clause, n);
    KeywordFound(ws, "FROM", 2);
    more := Join(left);
    JoinAppend([t], left);
    JoinOne(t);
    LastOfJoin(left);
    if clause == [] {
      assert left == ["LIMIT", Decimal(n)] == ["LIMIT"] + [Decimal(n)];
      JoinAppend(["LIMIT"], [Decimal(n)]);
      JoinOne("LIMIT");
      JoinOne(Decimal(n));
    }
  }

  lemma FromOfWords(t: string, clause: seq<string>, n: int)
    requires ReadableName(t)
    ensures ParseFrom(Join(Words(t, clause, n))) == t
  {
    NameStays(t);
    var more := AfterFrom(t, clause, n);
    assert !IsSpace(t[0]);
    hide Index, ToUpper, ReadableName, Trim, TrimSpace, Words, Join, IsSpace;
    TrimPadded(t + " " + more);
    FirstBlank(t, more);
    assert (t + " " + more)[..|t|] == t;
  }

  lemma AvoidsBoth(a: seq<string>, b: seq<string>, kw: string)
    requires Avoids(a, kw) && Avoids(b, kw)
    ensures Avoids(a + b, kw)
  {
  }

  lemma WordsAroundLimit(t: string, clause: seq<string>, n: int)
    ensures var ws, k := Words(t, clause, n), 4 + |clause|;
      && |ws| == k + 2 && ws[..k] == ["SELECT", "*", "FROM", t] + clause
      && ws[k] == "LIMIT" && ws[k + 1..] == [Decimal(n)]
  {
    hide Decimal;
  }

  lemma LimitOfWords(t: string, clause: seq<string>, n: int)
    requires ReadableName(t) && Clause(clause) && IsInt64(n)
    ensures ParseLimit(Join(Words(t, clause, n))) == n
  {
    var ws, k := Words(t, clause, n), 4 + |clause|;
    UpperKeywords();
    HeaderAvoids(t);
    WordsAroundLimit(t, clause, n);
    hide ToUpper, Join, IsWord, Index, Words, Decimal, ReadableName, Avoids, Offset, ScanInt;
    AvoidsBoth(["SELECT", "*", "FROM", t], clause, "LIMIT");
    KeywordFound(ws, "LIMIT", k);
    JoinOne(Decimal(n));
    DecimalRoundTrip(n);
  }

  lemma NoWhereInScan(t: string, n: int)
    requires ReadableName(t)
    ensures ParseWhere(Join(Words(t, [], n))) == None
  {
    var ws := Words(t, [], n);
    HeaderAvoids(t);
    DecimalWord(n);
    UpperKeywords();
    hide Index, ToUpper, Join, IsWord, ReadableName, Decimal;
    FixedWord("LIMIT", "WHERE", 1);
    FixedWord(Decimal(n), "WHERE", 1);
    assert ws == ["SELECT", "*", "FROM", t] + ["LIMIT", Decimal(n)];
    AvoidsBoth(["SELECT", "*", "FROM", t], ["LIMIT", Decimal(n)], "WHERE");
    KeywordMissing(ws, "WHERE");
  }

  lemma WordsAroundWhere(t: string, clause: seq<string>, n: int)
    requires |clause| >= 1
    ensures var ws := Words(t, clause, n);
      && |ws| == 6 + |clause| && ws[4] == clause[0]
      && (|clause| >= 3 ==> ws[5..][0] == clause[1] && ws[5..][1] == clause[2])
      && ws[..4] == ["SELECT", "*", "FROM", t] && ws[5..] == clause[1..] + ["LIMIT", Decimal(n)]
  {
    hide Decimal;
  }

  lemma WhereFound(ws: seq<string>, t: string)
    requires |ws| > 5 && ws[4] == "WHERE"
    requires ReadableName(t) && ws[..4] == ["SELECT", "*", "FROM", t]
    ensures var cql, i := Join(ws), Offset(ws, 4);
      Index(ToUpper(cql), "WHERE") == Some(i) && i + 5 <= |cql| && cql[i + 5..] == " " + Join(ws[5..])
  {
    hide Index, ToUpper, Join, ReadableName, Avoids, IsWord, Offset;
    UpperKeywords();
    HeaderAvoids(t);
    KeywordFound(ws, "WHERE", 4);
  }

  lemma SingleCondition(ws: seq<string>)
    requires AllWords(ws) && |ws| >= 3 && Index(" " + Join(ws), "AND") == None
    ensures ConditionsOf(Split(" " + Join(ws), "AND")) == [Condition(ws[0], ws[1])]
  {
    var rest := " " + Join(ws);
    assert Split(rest, "AND") == [rest];
    hide Index, Join, Split, TrimSpace, Fields;
    TrimJoin(ws);
    FieldsOfJoin(ws);
    assert [rest][..0] == [];
  }

  lemma WhereAt(cql: string, i: nat, ws: seq<string>)
    requires Index(ToUpper(cql), "WHERE") == Some(i) && i + 5 <= |cql| && ws != []
    requires cql[i + 5..] == " " + Join(ws)
    requires AllWords(ws) && |ws| >= 3 && Index(" " + Join(ws), "AND") == None
    ensures ParseWhere(cql) == Some(WhereClause([Condition(ws[0], ws[1])], "AND"))
  {
    hide Index, ToUpper, Join, Split, ConditionsOf;
    SingleCondition(ws);
  }

  lemma NoAndBetween(first: string, middle: string, tail: string)
    requires Index(first + " " + middle, "AND") == None && Index(tail, "AND") == None
    ensures Index(" " + (middle + " " + tail), "AND") == None
  {
    UpperKeywords();
    LacksLetter("", "AND", 0);
    hide *;
    IndexAcrossBlank(first, middle, "AND");
    IndexAcrossBlank(middle, tail, "AND");
    IndexAcrossBlank("", middle + " " + tail, "AND");
    assert "" + " " == " ";
  }

  lemma NoAndInLimit(n: int)
    ensures Index("LIMIT" + " " + Decimal(n), "AND") == None
  {
    DecimalWord(n);
    hide Decimal, Index;
    LacksLetter("LIMIT", "AND", 1);
    LacksLetter(Decimal(n), "AND", 1);
    IndexAcrossBlank("LIMIT", Decimal(n), "AND");
  }

  lemma NoAndAfter(clause: seq<string>, n: int)
    requires |clause| >= 2 && Index(Join(clause), "AND") == None
    ensures Index(" " + Join(clause[1..] + ["LIMIT", Decimal(n)]), "AND") == None
  {
    var middle, tail := Join(clause[1..]), "LIMIT" + " " + Decimal(n);
    assert Join(["LIMIT", Decimal(n)]) == tail;
    assert Join(clause) == clause[0] + " " + middle;
    NoAndInLimit(n);
    hide *;
    JoinAppend(clause[1..], ["LIMIT", Decimal(n)]);
    NoAndBetween(clause[0], middle, tail);
  }

  /** A word list that begins with WHERE and never contains AND parses to its first two words. */
  lemma WhereOfWords(t: string, clause: seq<string>, n: int)
    requires ReadableName(t) && Clause(clause) && |clause| >= 3 && clause[0] == "WHERE"
    requires Index(Join(clause), "AND") == None
    ensures ParseWhere(Join(Words(t, clause, n))) ==
            Some(WhereClause([Condition(clause[1], clause[2])], "AND"))
  {
    WordsAroundWhere(t, clause, n);
    hide *;
    var ws := Words(t, clause, n);
    WhereFound(ws, t);
    NoAndAfter(clause, n);
    TailWords(clause, n);
    WhereAt(Join(ws), Offset(ws, 4), ws[5..]);
  }

  lemma NearestWords()
    ensures AllWords(NEAREST)
  {
  }

  lemma NearestAvoids()
    ensures Avoids(NEAREST, "LIMIT")
  {
    hide Index, ToUpper;
    FixedWord("WHERE", "LIMIT", 0);
    FixedWord("embedding", "LIMIT", 0);
    FixedWord("SIMILAR", "LIMIT", 4);
    FixedWord("TO", "LIMIT", 0);
    FixedWord(":q", "LIMIT", 0);
  }

  lemma NearestClause()
    ensures Clause(NEAREST) && Index(Join(NEAREST), "AND") == None
  {
    NearestWords();
    NearestAvoids();
    NearestText();
    hide Join, Index, AllWords, Avoids;
    LacksLetter("WHERE embedding SIMILAR TO :q", "AND", 1);
  }

  lemma ThresholdClause()
    ensures Clause(THRESHOLD) && Index(Join(THRESHOLD), "AND") == None
  {
    NearestClause();
    NearestText();
    ThresholdText();
    hide Join, Index, ToUpper;
    FixedWord("WITH", "LIMIT", 0);
    FixedWord("THRESHOLD", "LIMIT", 1);
    FixedWord("0.8", "LIMIT", 0);
    assert IsWord("AND");
    LacksLetter("WITH THRESHOLD 0.8", "AND", 1);
    IndexAcrossBlank(Join(NEAREST), "WITH THRESHOLD 0.8", "AND");
    assert Join(THRESHOLD) == Join(NEAREST) + " " + "WITH THRESHOLD 0.8";
    forall j | 0 <= j < |THRESHOLD|
      ensures IsWord(THRESHOLD[j]) && Index(ToUpper(THRESHOLD[j]), "LIMIT") == None
    {
      if j < 5 { assert THRESHOLD[j] == NEAREST[j]; }
    }
  }

  const SIMILARITY := Some(WhereClause([Condition("embedding", "SIMILAR")], "AND"))

  lemma RoundTripWords(t: string, clause: seq<string>, n: int)
    requires ReadableName(t) && Clause(clause) && IsInt64(n)
    ensures var cql := Join(Words(t, clause, n));
      ParseSelect(cql) == ["*"] && ParseFrom(cql) == t && ParseLimit(cql) == n
  {
    SelectOfWords(t, clause, n);
    FromOfWords(t, clause, n);
    LimitOfWords(t, clause, n);
  }

  /** Parsing the printed text gives back the table, the one condition and the limit. */
  lemma RoundTrip(table: string, topK: int)
    requires IsAscii(table) && ReadableName(table) && IsInt64(topK)
    ensures Parsed(ScanText(table, topK)) == Query(["*"], table, None, None, if topK <= 0 then 100 else topK)
    ensures Parsed(VectorSearchText(table, topK)) ==
            Query(["*"], table, SIMILARITY, None, if topK <= 0 then 100 else topK)
    ensures Parsed(TextSearchText(table, topK)) == Query(["*"], table, SIMILARITY, None, topK)
  {
    hide Join, ParseSelect, ParseFrom, ParseWhere, ParseLimit, ReadableName, Words, Decimal, Index,
         ScanText, VectorSearchText, TextSearchText;
    NearestClause();
    ThresholdClause();
    PrintedWords(table, topK);
    RoundTripWords(table, [], DefaultLimit(topK));
    NoWhereInScan(table, DefaultLimit(topK));
    RoundTripWords(table, NEAREST, DefaultLimit(topK));
    WhereOfWords(table, NEAREST, DefaultLimit(topK));
    RoundTripWords(table, THRESHOLD, topK);
    WhereOfWords(table, THRESHOLD, topK);
  }

  // ---------------------------------------------------------------- keywords inside a table name

  const HEAD := "SELECT * FROM"

  lemma ScanShape(t: string, k: int)
    ensures ScanText(t, k) == HEAD + " " + (t + " " + ("LIMIT " + Decimal(DefaultLimit(k))))
  {
    hide Decimal;
    assert "SELECT * FROM " == HEAD + " ";
    assert " LIMIT " == " " + "LIMIT ";
  }

  lemma UpperAroundTable(t: string, tail: string)
    ensures ToUpper(HEAD + " " + (t + " " + tail)) == ToUpper(HEAD) + " " + (ToUpper(t) + " " + ToUpper(tail))
    ensures |ToUpper(HEAD)| == |HEAD|
  {
    assert ToUpper(" ") == " ";
    hide ToUpper;
    UpperConcat(HEAD + " ", t + " " + tail);
    UpperConcat(HEAD, " ");
    UpperConcat(t + " ", tail);
    UpperConcat(t, " ");
  }

  lemma HeadLacks(kw: string)
    requires kw == "WHERE" || kw == "LIMIT"
    ensures Index(ToUpper(HEAD), kw) == None && IsWord(kw)
  {
    UpperKeywords();
    hide Index, ToUpper, IsWord;
    FixedWord(HEAD, "WHERE", 1);
    FixedWord(HEAD, "LIMIT", 1);
  }

  /** A keyword in the table name is found before the real one. */
  lemma KeywordInTable(t: string, tail: string, kw: string)
    requires kw == "WHERE" || kw == "LIMIT"
    requires Index(ToUpper(t), kw).Some?
    ensures Index(ToUpper(HEAD + " " + (t + " " + tail)), kw) == Some(|HEAD| + 1 + Index(ToUpper(t), kw).value)
  {
    hide *;
    HeadLacks(kw);
    UpperAroundTable(t, tail);
    IndexAcrossBlank(ToUpper(HEAD), ToUpper(t) + " " + ToUpper(tail), kw);
    IndexAcrossBlank(ToUpper(t), ToUpper(tail), kw);
  }

  /** What is scanned after the keyword in the name does not depend on the limit that follows it. */
  lemma {:induction false} ScanInName(a: string, tail: string)
    requires tail != [] && tail[0] == 'L'
    ensures ScanInt(a + " " + tail) == ScanInt(a)
  {
    var s := a + " " + tail;
    assert IsSpace(' ') && !IsSpace('L') && !IsDigit('L');
    if a == [] {
      assert s[0] == ' ' && s[1..] == tail;
    } else if IsSpace(a[0]) {
      ScanInName(a[1..], tail);
      assert s[1..] == a[1..] + " " + tail;
    } else {
      var digits := if a[0] == '-' || a[0] == '+' then a[1..] else a;
      ParseDigitsStops(digits, " " + tail, 0);
      assert s == a + (" " + tail);
      assert s[1..] == a[1..] + (" " + tail);
    }
  }

  lemma AfterTable(t: string, i: nat, tail: string)
    requires i <= |t|
    ensures (HEAD + " " + (t + " " + tail))[|HEAD| + 1 + i..] == t[i..] + " " + tail
  {
  }

  lemma LimitInName(t: string, k: int)
    requires Index(ToUpper(t), "LIMIT").Some?
    ensures ParseLimit(ScanText(t, k)) == ScanInt(t[Index(ToUpper(t), "LIMIT").value + 5..])
  {
    hide Index, ToUpper, Decimal, ScanText, ScanInt;
    var i := Index(ToUpper(t), "LIMIT").value;
    var tail := "LIMIT " + Decimal(DefaultLimit(k));
    ScanShape(t, k);
    KeywordInTable(t, tail, "LIMIT");
    AfterTable(t, i + 5, tail);
    ScanInName(t[i + 5..], tail);
  }

  lemma WhereInName(t: string, k: int)
    requires Index(ToUpper(t), "WHERE").Some?
    ensures ParseWhere(ScanText(t, k)).Some?
  {
    hide Index, ToUpper, Decimal, ScanText;
    ScanShape(t, k);
    KeywordInTable(t, "LIMIT " + Decimal(DefaultLimit(k)), "WHERE");
  }

  ghost predicate ReadBack(t: string, k: int) {
    && Parsed(ScanText(t, k)) == Query(["*"], t, None, None, if k <= 0 then 100 else k)
    && Parsed(VectorSearchText(t, k)) == Query(["*"], t, SIMILARITY, None, if k <= 0 then 100 else k)
    && Parsed(TextSearchText(t, k)) == Query(["*"], t, SIMILARITY, None, k)
  }

  /** A parsed name has no blank, and neither end in the cut set. */
  lemma NameIsTrimmed(rest: string)
    ensures ' ' !in NameOf(rest)
    ensures NameOf(rest) != [] ==> NameOf(rest)[0] !in CUTSET && NameOf(rest)[|NameOf(rest)| - 1] !in CUTSET
  {
    var name := match Index(rest, " ") case Some(end) => rest[..end] case None => rest;
    var i, j := TrimmedPart(name, CUTSET);
    forall k | 0 <= k < |name|
      ensures name[k] != ' '
    {
      assert !MatchesAt(rest, " ", k);
      assert name[k] == rest[k] && rest[k..k + 1] == [rest[k]];
      assert [' '] == " ";
    }
  }

  lemma ShorterName(t: string, more: string)
    requires ' ' !in t
    ensures |NameOf(t + " " + more)| <= |t|
  {
    assert forall i :: 0 <= i < |t| ==> t[i] != ' ';
    hide Index;
    LacksLetter(t, " ", 0);
    FirstBlank(t, more);
    assert (t + " " + more)[..|t|] == t;
    hide Trim;
    var i, j := TrimmedPart(t, CUTSET);
  }

  lemma NextWord(more: string)
    requires |more| > 6 && more[..6] == "LIMIT "
    ensures NameOf(more) == "LIMIT"
  {
    var rest := more[6..];
    assert more == "LIMIT" + " " + rest by { assert "LIMIT" + " " == "LIMIT "; assert more == more[..6] + rest; }
    LacksLetter("LIMIT", " ", 0);
    FirstBlank("LIMIT", rest);
    TrimNothing("LIMIT", CUTSET);
    assert more[..5] == "LIMIT";
  }

  /** Blanks other than ' ' at the front of the name are dropped; an empty name reads as the next word. */
  lemma FrontDropped(t: string, more: string)
    requires ' ' !in t && (t == [] || t[0] in SPACES)
    requires |more| > 6 && more[..6] == "LIMIT " && !IsSpace(more[|more| - 1])
    ensures NameOf(TrimSpace(" " + (t + " " + more))) != t
  {
    var s := t + " " + more;
    var n := TrimLeftDrops(s, SPACES);
    assert more[0] == more[..6][0] == 'L' && s[|t| + 1] == 'L';
    assert !IsSpace('L') && IsSpace(' ');
    assert t == [] ==> s[0] == ' ';
    assert 1 <= n <= |t| + 1;
    hide Trim, TrimLeft, TrimRight, Index, NameOf;
    TrimSuffix(' ', s, n, SPACES);
    assert [' '] == " ";
    if n <= |t| {
      assert s[n..] == t[n..] + " " + more;
      ShorterName(t[n..], more);
    } else {
      assert s[n..] == more;
      NextWord(more);
      assert "LIMIT"[0] == 'L';
    }
  }

  /** Names that are not kept by trimming are not read back. */
  lemma NameNotKept(t: string, k: int)
    requires t == [] || ' ' in t || t[0] in SPACES || t[0] in CUTSET || t[|t| - 1] in CUTSET
    ensures ParseFrom(ScanText(t, k)) != t
  {
    PrintedWords(t, k);
    var more := AfterFrom(t, [], DefaultLimit(k));
    DecimalWord(DefaultLimit(k));
    hide Join, Words, ScanText, Index, ToUpper, Decimal, NameOf, TrimSpace, IsSpace;
    NameIsTrimmed(TrimSpace(" " + (t + " " + more)));
    if ' ' !in t && (t == [] || t[0] in SPACES) {
      assert "LIMIT" + " " == "LIMIT ";
      assert more[..6] == "LIMIT ";
      FrontDropped(t, more);
    }
  }

  /** An ASCII table name is read back under every limit exactly when it has no blank, is not changed by
      trimming, and hides no keyword. */
  lemma ReadBackIff(t: string)
    requires IsAscii(t)
    ensures (forall k :: IsInt64(k) ==> ReadBack(t, k)) <==> ReadableName(t)
  {
    hide ScanText, VectorSearchText, TextSearchText, ParseSelect, ParseFrom, ParseWhere, ParseLimit, Index, ToUpper;
    if ReadableName(t) {
      forall k | IsInt64(k)
        ensures ReadBack(t, k)
      {
        RoundTrip(t, k);
      }
    } else if Index(ToUpper(t), "WHERE").Some? {
      WhereInName(t, 1);
      assert IsInt64(1) && !ReadBack(t, 1);
    } else if Index(ToUpper(t), "LIMIT").Some? {
      LimitInName(t, 1);
      LimitInName(t, 2);
      assert IsInt64(1) && IsInt64(2) && !(ReadBack(t, 1) && ReadBack(t, 2));
    } else {
      NameNotKept(t, 1);
      assert IsInt64(1) && !ReadBack(t, 1);
    }
  }
}
