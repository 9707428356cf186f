/** Whole query texts: columns, a table, conditions and a limit, and what the router's parser reads from them. */
module CqlStatements {
  import opened Common
  import opened Text
  import opened Cql

  // ---------------------------------------------------------------- the texts

  datatype Keywords = Keywords(select: string, from: string, where_: string, limit: string)

  /** The keywords, each in upper case, lower case or a mixture. */
  predicate AnyCase(k: Keywords) {
    ToUpper(k.select) == "SELECT" && ToUpper(k.from) == "FROM" && ToUpper(k.where_) == "WHERE" &&
    ToUpper(k.limit) == "LIMIT"
  }

  predicate Hides(w: string, kw: string) {
    Index(ToUpper(w), kw).Some?
  }

  /** A column: a word without a comma, in which no keyword that follows it is hidden. */
  predicate IsColumn(c: string) {
    IsAscii(c) && IsWord(c) && ',' !in c && !Hides(c, "FROM") && !Hides(c, "WHERE") && !Hides(c, "LIMIT")
  }

  /** A word of a condition: neither LIMIT nor, in upper case, AND is hidden in it. */
  predicate IsTerm(w: string) {
    IsAscii(w) && IsWord(w) && Index(w, "AND") == None && !Hides(w, "LIMIT")
  }

  /** A condition of a query: a column, an operator, and what it is compared with. */
  datatype Comparison = Comparison(column: string, operator: string, operand: seq<string>)

  function WordsOf(c: Comparison): seq<string> {
    [c.column, c.operator] + c.operand
  }

  ghost predicate IsComparison(c: Comparison) {
    c.operand != [] && forall i :: 0 <= i < |WordsOf(c)| ==> IsTerm(WordsOf(c)[i])
  }

  ghost predicate Readable(cols: seq<string>, table: string, where_: seq<Comparison>, n: int) {
    && cols != [] && (forall i :: 0 <= i < |cols| ==> IsColumn(cols[i]))
    && IsAscii(table) && ReadableName(table)
    && (forall i :: 0 <= i < |where_| ==> IsComparison(where_[i]))
    && IsInt64(n)
  }

  /** The columns, a comma behind each but the last. */
  function CommaWords(cols: seq<string>): (r: seq<string>)
    ensures |r| == |cols|
  {
    if |cols| <= 1 then cols else [cols[0] + ","] + CommaWords(cols[1..])
  }

  /** The words of the conditions, AND between them. */
  function AndWords(cs: seq<Comparison>): seq<string> {
    if cs == [] then [] else if |cs| == 1 then WordsOf(cs[0]) else WordsOf(cs[0]) + ["AND"] + AndWords(cs[1..])
  }

  function WhereWords(k: Keywords, cs: seq<Comparison>): seq<string> {
    if cs == [] then [] else [k.where_] + AndWords(cs)
  }

  function Statement(k: Keywords, cols: seq<string>, table: string, cs: seq<Comparison>, n: int): seq<string> {
    [k.select] + CommaWords(cols) + [k.from, table] + WhereWords(k, cs) + [k.limit, Decimal(n)]
  }

  /** The column and the operator of each condition. */
  function Conditions(cs: seq<Comparison>): seq<Condition> {
    seq(|cs|, i requires 0 <= i < |cs| => Condition(cs[i].column, cs[i].operator))
  }

  // ---------------------------------------------------------------- conditions

  lemma {:induction false} ConditionsOfConcat(a: seq<string>, b: seq<string>)
    ensures ConditionsOf(a + b) == ConditionsOf(a) + ConditionsOf(b)
  {
    if b == [] {
      assert a + b == a;
    } else {
      var n := |b| - 1;
      ConditionsOfConcat(a, b[..n]);
      assert (a + b)[..|a + b| - 1] == a + b[..n];
    }
  }

  ghost predicate NoAnd(ws: seq<string>) {
    forall i :: 0 <= i < |ws| ==> Index(ws[i], "AND") == None
  }

  lemma {:induction false} WordsWithout(ws: seq<string>)
    requires ws != [] && NoAnd(ws)
    ensures Index(Join(ws), "AND") == None
  {
    UpperKeywords();
    if |ws| > 1 {
      assert NoAnd(ws[1..]);
      WordsWithout(ws[1..]);
      hide Index, IsWord;
      IndexAcrossBlank(ws[0], Join(ws[1..]), "AND");
    }
  }

  /** Blanks around are all that trimming removes. */
  lemma TrimBetweenBlanks(s: string)
    requires s != [] && !IsSpace(s[0]) && !IsSpace(s[|s| - 1])
    ensures TrimSpace(" " + s + " ") == s
  {
    var t := " " + s + " ";
    assert SPACES[0] == ' ';
    assert t[0] in SPACES && t[1..] == s + " " && (s + " ")[0] == s[0];
    assert TrimLeft(t, SPACES) == TrimLeft(t[1..], SPACES) == s + " ";
    assert (s + " ")[..|s|] == s;
    TrimNothing(s, SPACES);
    assert TrimRight(s + " ", SPACES) == TrimRight(s, SPACES);
  }

  /** One piece between two ANDs gives the condition that its words state. */
  lemma PieceOfCondition(c: seq<string>, last: bool)
    requires AllWords(c) && |c| >= 3
    ensures ConditionsOf([" " + Join(c) + if last then "" else " "]) == [Condition(c[0], c[1])]
  {
    var piece := " " + Join(c) + if last then "" else " ";
    assert [piece][..0] == [];
    assert TrimSpace(piece) == Join(c) by {
      JoinEnds(c);
      hide Join, TrimSpace;
      if last {
        TrimJoin(c);
        assert piece == " " + Join(c);
      } else {
        TrimBetweenBlanks(Join(c));
      }
    }
    FieldsOfJoin(c);
    hide Join, TrimSpace, Fields;
  }

  lemma SplitStep(s: string, sep: string)
    requires sep != []
    ensures Split(s, sep) == match Index(s, sep)
                             case None => [s]
                             case Some(i) => [s[..i]] + Split(s[i + |sep|..], sep)
  {
  }

  lemma CutAround(a: string, w: string, b: string)
    ensures (a + " " + (w + " " + b))[..|a| + 1] == a + " "
    ensures (a + " " + (w + " " + b))[|a| + 1 + |w|..] == " " + b
  {
  }

  /** The first AND of a list of conditions ends the first of them. */
  lemma SplitAtAnd(first: string, rest: string)
    requires Index(first, "AND") == None
    ensures Split(" " + first + " " + ("AND" + " " + rest), "AND") == [" " + first + " "] + Split(" " + rest, "AND")
  {
    var s, a := " " + first + " " + ("AND" + " " + rest), " " + first;
    UpperKeywords();
    assert MatchesAt("AND", "AND", 0);
    IndexUnique("AND", "AND", Some(0));
    LacksLetter("", "AND", 0);
    hide Index, Split, ToUpper, IsWord;
    IndexAcrossBlank("", first, "AND");
    assert "" + " " + first == a;
    IndexAcrossBlank("AND", rest, "AND");
    IndexAcrossBlank(a, "AND" + " " + rest, "AND");
    assert Index(s, "AND") == Some(|a| + 1);
    CutAround(a, "AND", rest);
    SplitStep(s, "AND");
  }

  lemma LastConditionRead(ws: seq<string>)
    requires AllWords(ws) && |ws| >= 3 && NoAnd(ws)
    ensures ConditionsOf(Split(" " + Join(ws), "AND")) == [Condition(ws[0], ws[1])]
  {
    UpperKeywords();
    LacksLetter("", "AND", 0);
    hide *;
    hide NoAnd;
    assert Index(Join(ws), "AND") == None by {
      WordsWithout(ws);
    }
    IndexAcrossBlank("", Join(ws), "AND");
    assert "" + " " == " ";
    SingleCondition(ws);
  }

  lemma FirstConditionRead(ws: seq<string>, rest: seq<string>, others: seq<Condition>)
    requires AllWords(ws) && |ws| >= 3 && NoAnd(ws) && rest != []
    requires ConditionsOf(Split(" " + Join(rest), "AND")) == others
    ensures ConditionsOf(Split(" " + Join(ws + (["AND"] + rest)), "AND")) == [Condition(ws[0], ws[1])] + others
  {
    UpperKeywords();
    hide *;
    hide NoAnd;
    var first, more := Join(ws), Join(rest);
    WordsWithout(ws);
    JoinAppend(ws, ["AND"] + rest);
    JoinAppend(["AND"], rest);
    JoinOne("AND");
    assert " " + (first + " " + ("AND" + " " + more)) == " " + first + " " + ("AND" + " " + more);
    SplitAtAnd(first, more);
    ConditionsOfConcat([" " + first + " "], Split(" " + more, "AND"));
    PieceOfCondition(ws, false);
  }

  lemma TermsAreWords(c: Comparison)
    requires IsComparison(c)
    ensures AllWords(WordsOf(c)) && NoAnd(WordsOf(c)) && |WordsOf(c)| >= 3
    ensures WordsOf(c)[0] == c.column && WordsOf(c)[1] == c.operator
  {
  }

  lemma WordsExtended(ws: seq<string>, tail: seq<string>)
    requires AllWords(ws) && NoAnd(ws) && AllWords(tail) && NoAnd(tail)
    ensures AllWords(ws + tail) && NoAnd(ws + tail)
  {
  }

  lemma MiddleMoves(a: seq<string>, b: seq<string>, c: seq<string>, d: seq<string>)
    ensures a + b + c + d == a + (b + (c + d))
  {
  }

  lemma AndWordsSplit(cs: seq<Comparison>, tail: seq<string>)
    requires cs != []
    ensures AndWords(cs) + tail ==
            if |cs| == 1 then WordsOf(cs[0]) + tail
            else WordsOf(cs[0]) + (["AND"] + (AndWords(cs[1..]) + tail))
  {
    if |cs| > 1 {
      MiddleMoves(WordsOf(cs[0]), ["AND"], AndWords(cs[1..]), tail);
    }
  }

  lemma ConditionsSplit(cs: seq<Comparison>)
    requires cs != []
    ensures Conditions(cs) == [Condition(cs[0].column, cs[0].operator)] + Conditions(cs[1..])
  {
  }

  /** The conditions are read in order. Words behind them belong to the last one, and do not change its first two. */
  lemma {:induction false} ConditionsRead(cs: seq<Comparison>, tail: seq<string>)
    requires cs != [] && forall i :: 0 <= i < |cs| ==> IsComparison(cs[i])
    requires AllWords(tail) && NoAnd(tail)
    ensures ConditionsOf(Split(" " + Join(AndWords(cs) + tail), "AND")) == Conditions(cs)
  {
    var ws := WordsOf(cs[0]);
    TermsAreWords(cs[0]);
    AndWordsSplit(cs, tail);
    ConditionsSplit(cs);
    assert Conditions([]) == [];
    hide *;
    if |cs| == 1 {
      WordsExtended(ws, tail);
      LastConditionRead(ws + tail);
    } else {
      ConditionsRead(cs[1..], tail);
      FirstConditionRead(ws, AndWords(cs[1..]) + tail, Conditions(cs[1..]));
    }
  }

  // ---------------------------------------------------------------- columns

  lemma SplitAtComma(a: string, b: string)
    requires ',' !in a
    ensures Split(a + "," + b, ",") == [a] + Split(b, ",")
  {
    var s := a + "," + b;
    hide Index, Split;
    forall j: nat | j < |a|
      ensures !MatchesAt(s, ",", j)
    {
      assert s[j..j + 1] == [a[j]] && a[j] in a;
      assert [','] == ",";
    }
    assert s[|a|..|a| + 1] == ",";
    IndexUnique(s, ",", Some(|a|));
    assert s[..|a|] == a && s[|a| + 1..] == b;
    SplitStep(s, ",");
  }

  lemma SplitWithoutComma(a: string)
    requires ',' !in a
    ensures Split(a, ",") == [a]
  {
    assert forall i :: 0 <= i < |a| ==> a[i] in a;
    LacksLetter(a, ",", 0);
    SplitStep(a, ",");
  }

  lemma TrimAllSplit(a: string, rest: seq<string>)
    ensures TrimAll([a] + rest) == [TrimSpace(a)] + TrimAll(rest)
  {
    hide TrimSpace;
  }

  lemma TrimColumn(c: string)
    requires IsWord(c) && ',' !in c
    ensures TrimSpace(" " + c) == c && TrimSpace(" " + c + " ") == c
    ensures ',' !in " " + c && ',' !in " " + c + " "
  {
    TrimPadded(c);
    TrimBetweenBlanks(c);
  }

  lemma Regroup(blank: string, a: string, comma: string, b: string)
    ensures blank + (a + comma + blank + b) + blank == blank + a + comma + (blank + b + blank)
  {
  }

  lemma CommaWordsText(cols: seq<string>)
    requires |cols| > 1
    ensures " " + Join(CommaWords(cols)) + " " == " " + cols[0] + "," + (" " + Join(CommaWords(cols[1..])) + " ")
  {
    var rest := Join(CommaWords(cols[1..]));
    assert CommaWords(cols)[1..] == CommaWords(cols[1..]);
    assert Join(CommaWords(cols)) == cols[0] + "," + " " + rest;
    hide *;
    Regroup(" ", cols[0], ",", rest);
  }

  /** The columns are read in order. */
  lemma {:induction false} ColumnsRead(cols: seq<string>)
    requires cols != [] && forall i :: 0 <= i < |cols| ==> IsWord(cols[i]) && ',' !in cols[i]
    ensures TrimAll(Split(" " + Join(CommaWords(cols)) + " ", ",")) == cols
  {
    hide IsWord;
    TrimColumn(cols[0]);
    if |cols| == 1 {
      JoinOne(cols[0]);
      hide Join, Split, TrimSpace;
      SplitWithoutComma(" " + cols[0] + " ");
    } else {
      ColumnsRead(cols[1..]);
      hide *;
      var rest := " " + Join(CommaWords(cols[1..])) + " ";
      CommaWordsText(cols);
      SplitAtComma(" " + cols[0], rest);
      TrimAllSplit(" " + cols[0], Split(rest, ","));
    }
  }

  // ---------------------------------------------------------------- clauses and their keywords

  /** Word k begins behind the words before it and a blank. */
  lemma {:induction false} OffsetOfPrefix(ws: seq<string>, k: nat)
    requires 1 <= k <= |ws|
    ensures Offset(ws, k) == |Join(ws[..k])| + 1
  {
    if k > 1 {
      OffsetOfPrefix(ws[1..], k - 1);
      assert ws[..k][1..] == ws[1..][..k - 1];
    } else {
      assert Offset(ws[1..], 0) == 0;
    }
  }

  lemma ListBetween(cql: string, select: string, list: string, rest: string, from: nat)
    requires |select| == 6 && cql == select + " " + list + " " + rest && from == |select + " " + list| + 1
    ensures 6 <= from <= |cql| && cql[6..from] == " " + list + " "
  {
  }

  lemma SelectBetween(cql: string, from: nat)
    requires Index(ToUpper(cql), "SELECT") == Some(0) && Index(ToUpper(cql), "FROM") == Some(from) && 6 <= from <= |cql|
    ensures ParseSelect(cql) == TrimAll(Split(cql[6..from], ","))
  {
    hide Index, ToUpper, TrimAll, Split;
  }

  /** What is read between the first word and FROM. */
  lemma SelectRead(select: string, cols: seq<string>, from: string, rest: seq<string>)
    requires ToUpper(select) == "SELECT" && ToUpper(from) == "FROM" && rest != []
    requires cols != [] && forall i :: 0 <= i < |cols| ==> IsWord(cols[i]) && ',' !in cols[i]
    requires Avoids([select] + CommaWords(cols), "FROM")
    ensures ParseSelect(Join([select] + CommaWords(cols) + ([from] + rest))) == cols
  {
    UpperKeywords();
    var front := [select] + CommaWords(cols);
    var ws, k := front + ([from] + rest), |front|;
    var cql := Join(ws);
    assert |select| == 6 && Offset(ws, 0) == 0 && ws[..k] == front && ws[0] == select && ws[..0] == [];
    hide *;
    KeywordFound(ws, "SELECT", 0);
    KeywordFound(ws, "FROM", k);
    OffsetOfPrefix(ws, k);
    JoinAppend(front, [from] + rest);
    JoinAppend([select], CommaWords(cols));
    JoinOne(select);
    ColumnsRead(cols);
    ListBetween(cql, select, Join(CommaWords(cols)), Join([from] + rest), Offset(ws, k));
    SelectBetween(cql, Offset(ws, k));
  }

  lemma TableRead(t: string, more: string)
    requires ReadableName(t) && more != [] && !IsSpace(more[|more| - 1])
    ensures NameOf(TrimSpace(" " + (t + " " + more))) == t
  {
    NameStays(t);
    assert !IsSpace(t[0]);
    hide Index, ReadableName, Trim, TrimSpace, IsSpace;
    TrimPadded(t + " " + more);
    FirstBlank(t, more);
    assert (t + " " + more)[..|t|] == t;
  }

  lemma FromAt(cql: string, i: nat, rest: string)
    requires Index(ToUpper(cql), "FROM") == Some(i) && i + 4 <= |cql| && cql[i + 4..] == rest
    ensures ParseFrom(cql) == NameOf(TrimSpace(rest))
  {
  }

  lemma FromRead(ws: seq<string>, k: nat, t: string, rest: seq<string>)
    requires k + 1 < |ws| && ToUpper(ws[k]) == "FROM" && Avoids(ws[..k], "FROM")
    requires ws[k + 1..] == [t] + rest && ReadableName(t) && rest != [] && IsWord(rest[|rest| - 1])
    ensures ParseFrom(Join(ws)) == t
  {
    UpperKeywords();
    assert Join(rest) != [] && !IsSpace(Join(rest)[|Join(rest)| - 1]) by {
      LastOfJoin(rest);
    }
    hide *;
    KeywordFound(ws, "FROM", k);
    JoinAppend([t], rest);
    JoinOne(t);
    FromAt(Join(ws), Offset(ws, k), " " + Join(ws[k + 1..]));
    TableRead(t, Join(rest));
  }

  lemma LimitAt(cql: string, i: nat, rest: string)
    requires Index(ToUpper(cql), "LIMIT") == Some(i) && i + 5 <= |cql| && cql[i + 5..] == rest
    ensures ParseLimit(cql) == ScanInt(rest)
  {
  }

  lemma LimitRead(ws: seq<string>, k: nat, n: int)
    requires |ws| == k + 2 && ToUpper(ws[k]) == "LIMIT" && Avoids(ws[..k], "LIMIT")
    requires ws[k + 1] == Decimal(n) && IsInt64(n)
    ensures ParseLimit(Join(ws)) == n
  {
    UpperKeywords();
    assert ws[k + 1..] == [Decimal(n)];
    hide *;
    KeywordFound(ws, "LIMIT", k);
    JoinOne(Decimal(n));
    LimitAt(Join(ws), Offset(ws, k), " " + Decimal(n));
    DecimalRoundTrip(n);
  }

  lemma WhereClauseAt(cql: string, i: nat, rest: string)
    requires Index(ToUpper(cql), "WHERE") == Some(i) && i + 5 <= |cql| && cql[i + 5..] == rest
    ensures ParseWhere(cql) == Some(WhereClause(ConditionsOf(Split(rest, "AND")), "AND"))
  {
  }

  lemma WhereRead(ws: seq<string>, k: nat, cs: seq<Comparison>, tail: seq<string>)
    requires k + 1 < |ws| && ToUpper(ws[k]) == "WHERE" && Avoids(ws[..k], "WHERE")
    requires ws[k + 1..] == AndWords(cs) + tail
    requires cs != [] && forall i :: 0 <= i < |cs| ==> IsComparison(cs[i])
    requires AllWords(tail) && NoAnd(tail)
    ensures ParseWhere(Join(ws)) == Some(WhereClause(Conditions(cs), "AND"))
  {
    UpperKeywords();
    hide *;
    KeywordFound(ws, "WHERE", k);
    WhereClauseAt(Join(ws), Offset(ws, k), " " + Join(ws[k + 1..]));
    ConditionsRead(cs, tail);
  }

  // ---------------------------------------------------------------- whole statements

  /** A comma behind a word hides no keyword. */
  lemma CommaAvoids(w: string, kw: string)
    requires kw == "FROM" || kw == "WHERE" || kw == "LIMIT"
    requires !Hides(w, kw)
    ensures !Hides(w + ",", kw)
  {
    var u := ToUpper(w);
    assert ToUpper(w + ",") == u + ",";
    assert forall i :: 0 <= i < |kw| ==> kw[i] != ',';
    forall j: nat
      ensures !MatchesAt(u + ",", kw, j)
    {
      assert !MatchesAt(u, kw, j);
      if j + |kw| <= |u| {
        assert (u + ",")[j..j + |kw|] == u[j..j + |kw|];
      } else if j + |kw| == |u| + 1 {
        assert (u + ",")[j..j + |kw|][|kw| - 1] == ',';
      }
    }
  }

  lemma {:induction false} ColumnsAvoid(cols: seq<string>, kw: string)
    requires kw == "FROM" || kw == "WHERE" || kw == "LIMIT"
    requires forall i :: 0 <= i < |cols| ==> !Hides(cols[i], kw)
    ensures Avoids(CommaWords(cols), kw)
  {
    if |cols| > 1 {
      hide Index, ToUpper;
      CommaAvoids(cols[0], kw);
      ColumnsAvoid(cols[1..], kw);
    }
  }

  lemma {:induction false} ConditionsAvoid(cs: seq<Comparison>)
    requires forall i :: 0 <= i < |cs| ==> IsComparison(cs[i])
    ensures Avoids(AndWords(cs), "LIMIT")
  {
    if cs != [] {
      assert IsComparison(cs[0]);
      ConditionsAvoid(cs[1..]);
      hide Index, ToUpper;
      FixedWord("AND", "LIMIT", 0);
    }
  }

  /** The fixed words hide no other keyword, and the last of them no AND. */
  lemma KeywordsAvoid(k: Keywords)
    requires AnyCase(k)
    ensures !Hides(k.select, "FROM") && !Hides(k.select, "WHERE") && !Hides(k.select, "LIMIT")
    ensures !Hides(k.from, "WHERE") && !Hides(k.from, "LIMIT")
    ensures !Hides(k.where_, "LIMIT") && !Hides(k.limit, "WHERE")
  {
    UpperKeywords();
    hide Index;
    FixedWord("SELECT", "FROM", 0);
    FixedWord("SELECT", "WHERE", 1);
    FixedWord("SELECT", "LIMIT", 1);
    FixedWord("FROM", "WHERE", 1);
    FixedWord("FROM", "LIMIT", 1);
    FixedWord("WHERE", "LIMIT", 0);
    FixedWord("LIMIT", "WHERE", 1);
    hide ToUpper;
  }

  lemma TailRead(limit: string, n: int)
    requires ToUpper(limit) == "LIMIT"
    ensures AllWords([limit, Decimal(n)]) && NoAnd([limit, Decimal(n)])
    ensures !Hides(Decimal(n), "WHERE")
  {
    DecimalWord(n);
    assert |limit| == 5 && forall i :: 0 <= i < 5 ==> UpperChar(limit[i]) == "LIMIT"[i];
    assert forall i :: 0 <= i < 5 ==> !IsSpace(limit[i]) && limit[i] != 'A';
    hide Decimal, Index, ToUpper;
    LacksLetter(limit, "AND", 0);
    LacksLetter(Decimal(n), "AND", 1);
    FixedWord(Decimal(n), "WHERE", 1);
  }

  lemma TailAvoids(k: Keywords, n: int)
    requires AnyCase(k)
    ensures AllWords([k.limit, Decimal(n)]) && NoAnd([k.limit, Decimal(n)])
    ensures Avoids([k.limit, Decimal(n)], "WHERE")
  {
    hide Index, ToUpper, IsWord, Decimal;
    TailRead(k.limit, n);
    KeywordsAvoid(k);
  }

  /** Where the words of a statement stand. */
  lemma Layout(a: seq<string>, from: string, t: string, w: seq<string>, tail: seq<string>)
    ensures var ws, i := a + [from, t] + w + tail, |a|;
      && |ws| == i + 2 + |w| + |tail| && ws == a + ([from] + ([t] + (w + tail)))
      && ws[..i] == a && ws[i] == from && ws[i + 1..] == [t] + (w + tail)
      && ws[..i + 2] == a + [from, t] && ws[i + 2..] == w + tail
      && ws[..i + 2 + |w|] == a + [from, t] + w && ws[i + 2 + |w|..] == tail
  {
  }

  function Head(k: Keywords, cols: seq<string>): seq<string> {
    [k.select] + CommaWords(cols)
  }

  lemma HeadAvoids(k: Keywords, cols: seq<string>, table: string)
    requires AnyCase(k) && (forall i :: 0 <= i < |cols| ==> IsColumn(cols[i])) && ReadableName(table)
    ensures Avoids(Head(k, cols), "FROM")
    ensures Avoids(Head(k, cols) + [k.from, table], "WHERE") && Avoids(Head(k, cols) + [k.from, table], "LIMIT")
  {
    KeywordsAvoid(k);
    assert !Hides(table, "WHERE") && !Hides(table, "LIMIT");
    hide Index, ToUpper, ReadableName, IsWord, IsAscii;
    ColumnsAvoid(cols, "FROM");
    ColumnsAvoid(cols, "WHERE");
    ColumnsAvoid(cols, "LIMIT");
  }

  lemma StatementSelect(k: Keywords, cols: seq<string>, rest: seq<string>)
    requires AnyCase(k) && cols != [] && (forall i :: 0 <= i < |cols| ==> IsColumn(cols[i])) && rest != []
    requires Avoids(Head(k, cols), "FROM")
    ensures ParseSelect(Join(Head(k, cols) + ([k.from] + rest))) == cols
  {
    assert forall i :: 0 <= i < |cols| ==> IsWord(cols[i]) && ',' !in cols[i];
    hide Index, ToUpper, IsColumn, Avoids, Join, IsWord;
    SelectRead(k.select, cols, k.from, rest);
  }

  lemma NoWhere(a: seq<string>, b: seq<string>)
    requires a != [] && Avoids(a, "WHERE") && Avoids(b, "WHERE")
    ensures ParseWhere(Join(a + b)) == None
  {
    UpperKeywords();
    hide Index, ToUpper, IsWord, Join, Avoids;
    AvoidsBoth(a, b, "WHERE");
    KeywordMissing(a + b, "WHERE");
  }

  lemma NextOf(ws: seq<string>, i: nat, w: string, a: seq<string>, b: seq<string>)
    requires i <= |ws| && ws[i..] == [w] + a + b
    ensures i < |ws| && ws[i] == w && ws[i + 1..] == a + b
  {
    assert ws == ws[..i] + ([w] + a + b);
  }

  lemma WhereReadAt(ws: seq<string>, i: nat, where_: string, cs: seq<Comparison>, tail: seq<string>)
    requires ToUpper(where_) == "WHERE" && cs != [] && (forall i :: 0 <= i < |cs| ==> IsComparison(cs[i]))
    requires i <= |ws| && Avoids(ws[..i], "WHERE") && AllWords(tail) && NoAnd(tail)
    requires ws[i..] == [where_] + AndWords(cs) + tail
    ensures ws != [] && ParseWhere(Join(ws)) == Some(WhereClause(Conditions(cs), "AND"))
  {
    assert tail != [];
    hide *;
    NextOf(ws, i, where_, AndWords(cs), tail);
    WhereRead(ws, i, cs, tail);
  }

  lemma WhereWordsAvoid(k: Keywords, cs: seq<Comparison>)
    requires AnyCase(k) && forall i :: 0 <= i < |cs| ==> IsComparison(cs[i])
    ensures Avoids(WhereWords(k, cs), "LIMIT")
  {
    KeywordsAvoid(k);
    hide Index, ToUpper, IsComparison;
    ConditionsAvoid(cs);
  }

  lemma StatementLayout(k: Keywords, cols: seq<string>, table: string, cs: seq<Comparison>, n: int)
    ensures var ws, w, tail, i := Statement(k, cols, table, cs, n), WhereWords(k, cs), [k.limit, Decimal(n)],
                                  |Head(k, cols)|;
      && |ws| == i + 2 + |w| + 2 && ws == Head(k, cols) + ([k.from] + ([table] + (w + tail)))
      && ws[..i] == Head(k, cols) && ws[i] == k.from && ws[i + 1..] == [table] + (w + tail)
      && ws[..i + 2] == Head(k, cols) + [k.from, table] && ws[i + 2..] == w + tail
      && ws[..i + 2 + |w|] == Head(k, cols) + [k.from, table] + w && ws[i + 2 + |w|] == k.limit
      && ws[i + 3 + |w|] == Decimal(n)
  {
    hide Decimal, WhereWords;
    Layout(Head(k, cols), k.from, table, WhereWords(k, cs), [k.limit, Decimal(n)]);
  }

  lemma ReadSelect(k: Keywords, cols: seq<string>, table: string, cs: seq<Comparison>, n: int)
    requires AnyCase(k) && Readable(cols, table, cs, n)
    ensures ParseSelect(Join(Statement(k, cols, table, cs, n))) == cols
  {
    assert cols != [] && (forall i :: 0 <= i < |cols| ==> IsColumn(cols[i])) && ReadableName(table);
    hide *;
    HeadAvoids(k, cols, table);
    StatementLayout(k, cols, table, cs, n);
    StatementSelect(k, cols, [table] + (WhereWords(k, cs) + [k.limit, Decimal(n)]));
  }

  lemma ReadFrom(k: Keywords, cols: seq<string>, table: string, cs: seq<Comparison>, n: int)
    requires AnyCase(k) && Readable(cols, table, cs, n)
    ensures ParseFrom(Join(Statement(k, cols, table, cs, n))) == table
  {
    assert ToUpper(k.from) == "FROM";
    assert (forall i :: 0 <= i < |cols| ==> IsColumn(cols[i])) && ReadableName(table);
    hide *;
    DecimalWord(n);
    HeadAvoids(k, cols, table);
    StatementLayout(k, cols, table, cs, n);
    FromRead(Statement(k, cols, table, cs, n), |Head(k, cols)|, table, WhereWords(k, cs) + [k.limit, Decimal(n)]);
  }

  lemma ReadWhere(k: Keywords, cols: seq<string>, table: string, cs: seq<Comparison>, n: int)
    requires AnyCase(k) && Readable(cols, table, cs, n)
    ensures ParseWhere(Join(Statement(k, cols, table, cs, n))) ==
            if cs == [] then None else Some(WhereClause(Conditions(cs), "AND"))
  {
    assert (forall i :: 0 <= i < |cols| ==> IsColumn(cols[i])) && ReadableName(table);
    assert forall i :: 0 <= i < |cs| ==> IsComparison(cs[i]);
    assert ToUpper(k.where_) == "WHERE" && ToUpper(k.limit) == "LIMIT";
    assert WhereWords(k, cs) == if cs == [] then [] else [k.where_] + AndWords(cs);
    hide *;
    var front, tail := Head(k, cols) + [k.from, table], [k.limit, Decimal(n)];
    HeadAvoids(k, cols, table);
    TailAvoids(k, n);
    StatementLayout(k, cols, table, cs, n);
    if cs == [] {
      assert WhereWords(k, cs) + tail == tail;
      assert Statement(k, cols, table, cs, n) == front + tail;
      NoWhere(front, tail);
    } else {
      WhereReadAt(Statement(k, cols, table, cs, n), |Head(k, cols)| + 2, k.where_, cs, tail);
    }
  }

  lemma ReadLimit(k: Keywords, cols: seq<string>, table: string, cs: seq<Comparison>, n: int)
    requires AnyCase(k) && Readable(cols, table, cs, n)
    ensures ParseLimit(Join(Statement(k, cols, table, cs, n))) == n
  {
    assert ToUpper(k.limit) == "LIMIT" && IsInt64(n);
    assert (forall i :: 0 <= i < |cols| ==> IsColumn(cols[i])) && ReadableName(table);
    assert forall i :: 0 <= i < |cs| ==> IsComparison(cs[i]);
    hide *;
    HeadAvoids(k, cols, table);
    WhereWordsAvoid(k, cs);
    StatementLayout(k, cols, table, cs, n);
    AvoidsBoth(Head(k, cols) + [k.from, table], WhereWords(k, cs), "LIMIT");
    LimitRead(Statement(k, cols, table, cs, n), |Head(k, cols)| + 2 + |WhereWords(k, cs)|, n);
  }

  lemma ParsedParts(cql: string)
    ensures Parsed(cql) == Query(ParseSelect(cql), ParseFrom(cql), ParseWhere(cql), None, ParseLimit(cql))
  {
  }

  /** A query text of any number of columns and conditions, its keywords in any case, is read as what it says. */
  lemma StatementRead(k: Keywords, cols: seq<string>, table: string, cs: seq<Comparison>, n: int)
    requires AnyCase(k) && Readable(cols, table, cs, n)
    ensures Parsed(Join(Statement(k, cols, table, cs, n))) ==
            Query(cols, table, if cs == [] then None else Some(WhereClause(Conditions(cs), "AND")), None, n)
  {
    assert Statement(k, cols, table, cs, n) != [];
    hide *;
    ReadSelect(k, cols, table, cs, n);
    ReadFrom(k, cols, table, cs, n);
    ReadWhere(k, cols, table, cs, n);
    ReadLimit(k, cols, table, cs, n);
    ParsedParts(Join(Statement(k, cols, table, cs, n)));
  }

  // ---------------------------------------------------------------- the text that the router parses at its start

  const EXAMPLE := "SELECT id, embedding FROM documents " + "WHERE type = 'pdf' LIMIT 10"

  const PDFS := [Comparison("type", "=", ["'pdf'"])]

  const UPPER := Keywords("SELECT", "FROM", "WHERE", "LIMIT")

  lemma TenText()
    ensures Decimal(10) == "10"
  {
    assert Digits(10) == Digits(10 / 10) + [DigitChar(10 % 10)];
  }

  lemma ExampleWords()
    ensures Statement(UPPER, ["id", "embedding"], "documents", PDFS, 10) ==
            ["SELECT", "id,", "embedding", "FROM", "documents", "WHERE", "type", "=", "'pdf'", "LIMIT", "10"]
  {
    TenText();
    hide Decimal;
    assert AndWords(PDFS) == ["type", "=", "'pdf'"];
    assert CommaWords(["embedding"]) == ["embedding"];
    assert ["id", "embedding"][1..] == ["embedding"] && "id" + "," == "id,";
    assert CommaWords(["id", "embedding"]) == ["id,", "embedding"];
  }

  lemma JoinTwo(a: string, b: string)
    ensures Join([a, b]) == a + " " + b
  {
  }

  lemma ExampleFront()
    ensures Join(["SELECT", "id,", "embedding", "FROM", "documents"]) == "SELECT id, embedding FROM documents"
  {
    JoinTwo("SELECT", "id,");
    JoinTwo("embedding", "FROM");
    JoinOne("documents");
    hide *;
    var a, b := ["SELECT", "id,"], ["embedding", "FROM"];
    JoinAppend(a, b);
    assert "SELECT" + " " + "id," + " " + ("embedding" + " " + "FROM") == "SELECT id, embedding FROM";
    JoinAppend(a + b, ["documents"]);
    assert a + b + ["documents"] == ["SELECT", "id,", "embedding", "FROM", "documents"];
    assert "SELECT id, embedding FROM" + " " + "documents" == "SELECT id, embedding FROM documents";
  }

  lemma ExampleBack()
    ensures Join(["WHERE", "type", "=", "'pdf'", "LIMIT", "10"]) == "WHERE type = 'pdf' LIMIT 10"
  {
    JoinTwo("WHERE", "type");
    JoinTwo("=", "'pdf'");
    JoinTwo("LIMIT", "10");
    hide *;
    var a, b, c := ["WHERE", "type"], ["=", "'pdf'"], ["LIMIT", "10"];
    JoinAppend(a, b);
    assert "WHERE" + " " + "type" + " " + ("=" + " " + "'pdf'") == "WHERE type = 'pdf'";
    JoinAppend(a + b, c);
    assert a + b + c == ["WHERE", "type", "=", "'pdf'", "LIMIT", "10"];
    assert "WHERE type = 'pdf'" + " " + ("LIMIT" + " " + "10") == "WHERE type = 'pdf' LIMIT 10";
  }

  lemma ExampleText()
    ensures Join(Statement(UPPER, ["id", "embedding"], "documents", PDFS, 10)) == EXAMPLE
  {
    ExampleWords();
    assert EXAMPLE == "SELECT id, embedding FROM documents" + " " + "WHERE type = 'pdf' LIMIT 10" by {
      assert "SELECT id, embedding FROM documents" + " " == "SELECT id, embedding FROM documents ";
    }
    hide *;
    ExampleFront();
    ExampleBack();
    var front := ["SELECT", "id,", "embedding", "FROM", "documents"];
    JoinAppend(front, ["WHERE", "type", "=", "'pdf'", "LIMIT", "10"]);
    assert front + ["WHERE", "type", "=", "'pdf'", "LIMIT", "10"] ==
           ["SELECT", "id,", "embedding", "FROM", "documents", "WHERE", "type", "=", "'pdf'", "LIMIT", "10"];
  }

  lemma ExampleColumns()
    ensures IsColumn("id") && IsColumn("embedding")
  {
    hide Index, ToUpper;
    FixedWord("id", "FROM", 0);
    FixedWord("id", "WHERE", 0);
    FixedWord("id", "LIMIT", 0);
    FixedWord("embedding", "FROM", 0);
    FixedWord("embedding", "WHERE", 0);
    FixedWord("embedding", "LIMIT", 0);
  }

  lemma ExampleTable()
    ensures ReadableName("documents") && IsAscii("documents")
  {
    hide Index, ToUpper;
    FixedWord("documents", "WHERE", 0);
    FixedWord("documents", "LIMIT", 0);
  }

  lemma ExampleTerms()
    ensures IsTerm("type") && IsTerm("=") && IsTerm("'pdf'")
  {
    hide Index, ToUpper;
    FixedWord("type", "LIMIT", 0);
    FixedWord("=", "LIMIT", 0);
    FixedWord("'pdf'", "LIMIT", 0);
    LacksLetter("type", "AND", 0);
    LacksLetter("=", "AND", 0);
    LacksLetter("'pdf'", "AND", 0);
  }

  lemma ExampleReadable()
    ensures AnyCase(UPPER) && Readable(["id", "embedding"], "documents", PDFS, 10)
  {
    UpperKeywords();
    hide IsColumn, ReadableName, IsTerm, ToUpper, IsAscii;
    ExampleColumns();
    ExampleTable();
    ExampleTerms();
  }

  lemma ExampleRead()
    ensures Parsed(EXAMPLE) ==
            Query(["id", "embedding"], "documents", Some(WhereClause([Condition("type", "=")], "AND")), None, 10)
  {
    assert Conditions(PDFS) == [Condition("type", "=")];
    hide *;
    ExampleText();
    ExampleReadable();
    StatementRead(UPPER, ["id", "embedding"], "documents", PDFS, 10);
  }
}
