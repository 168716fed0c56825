/** The packages of dpkg.c, the edges that add_split_dependencies makes of dependency clauses, and how check_deps
    scans them. */
module DpkgDeps {
  import opened DpkgVersion
  import opened Wrappers
  import opened DpkgTables

  const EDGE_PRE_DEPENDS := 1
  const EDGE_OR_PRE_DEPENDS := 2
  const EDGE_DEPENDS := 3
  const EDGE_OR_DEPENDS := 4
  const EDGE_PROVIDES := 7

  datatype Edge = Edge(op: Operator, kind: nat, name: nat, version: nat)
  datatype Package = Package(name: nat, version: nat, edges: seq<Edge>)

  /** What the status file says of a package: whether it is wanted, and whether it is installed. */
  datatype Status = Unknown | Known(wanted: bool, installed: bool)

  // ----- from clauses to edges

  datatype Alternative = Alternative(op: Operator, name: nat, version: nat)

  /** A clause of a dependency line: its text as a name, whether cutting it at the bars
      changes it, and the alternatives. */
  datatype Clause = Clause(text: nat, cut: bool, alternatives: seq<Alternative>)

  predicate WellCut(c: Clause) {
    c.alternatives != [] && (|c.alternatives| >= 2 ==> c.cut)
  }

  predicate IsDependency(kind: nat) {
    kind == EDGE_PRE_DEPENDS || kind == EDGE_DEPENDS
  }

  function EdgeOf(kind: nat, a: Alternative): Edge {
    Edge(a.op, kind, a.name, a.version)
  }

  function AlternativeEdges(kind: nat, alts: seq<Alternative>): (es: seq<Edge>)
    ensures |es| == |alts|
  {
    if alts == [] then [] else [EdgeOf(kind, alts[0])] + AlternativeEdges(kind, alts[1..])
  }

  /** The version of the opening edge counts the alternatives in 16 bits. */
  function ClauseEdges(kind: nat, c: Clause): seq<Edge> {
    (if IsDependency(kind) && c.cut then [Edge(VER_NULL, kind + 1, c.text, Low16(|c.alternatives|))] else [])
    + AlternativeEdges(kind, c.alternatives)
  }

  function Low16(x: nat): nat {
    x % 65536
  }

  lemma {:induction false} CountUp(k: nat)
    ensures Low16(0) == 0 && Low16(Low16(k) + 1) == Low16(k + 1)
  {
  }

  function LineEdges(kind: nat, cs: seq<Clause>): seq<Edge> {
    if cs == [] then [] else ClauseEdges(kind, cs[0]) + LineEdges(kind, cs[1..])
  }

  /** A line of the control file: the kind of its edges, which is odd, and its clauses. */
  datatype Line = Line(kind: nat, clauses: seq<Clause>)

  predicate WellFormed(l: Line) {
    l.kind % 2 == 1 && forall i :: 0 <= i < |l.clauses| ==> WellCut(l.clauses[i]) && Countable(l.clauses[i])
  }

  /** The counter of alternatives does not overflow. */
  predicate Countable(c: Clause) {
    |c.alternatives| < 65536
  }

  function AllEdges(ls: seq<Line>): seq<Edge> {
    if ls == [] then [] else LineEdges(ls[0].kind, ls[0].clauses) + AllEdges(ls[1..])
  }

  lemma {:induction false} AlternativesSnoc(kind: nat, alts: seq<Alternative>, n: nat)
    requires n < |alts|
    ensures AlternativeEdges(kind, alts[..n + 1]) == AlternativeEdges(kind, alts[..n]) + [EdgeOf(kind, alts[n])]
  {
    if n > 0 {
      assert alts[..n + 1][1..] == alts[1..][..n] && alts[..n][1..] == alts[1..][..n - 1];
      AlternativesSnoc(kind, alts[1..], n - 1);
    } else {
      assert alts[..1][1..] == [] && alts[..0] == [];
    }
  }

  lemma {:induction false} LineSnoc(kind: nat, cs: seq<Clause>, n: nat)
    requires n < |cs|
    ensures LineEdges(kind, cs[..n + 1]) == LineEdges(kind, cs[..n]) + ClauseEdges(kind, cs[n])
  {
    hide ClauseEdges;
    if n > 0 {
      assert cs[..n + 1][1..] == cs[1..][..n] && cs[..n][1..] == cs[1..][..n - 1];
      LineSnoc(kind, cs[1..], n - 1);
    } else {
      assert cs[..1][1..] == [] && cs[..0] == [];
    }
  }

  /** One turn of the outer loop of add_split_dependencies. */
  method AddClause(edges: seq<Edge>, kind: nat, c: Clause) returns (r: seq<Edge>)
    requires c.alternatives != []
    ensures r == edges + ClauseEdges(kind, c)
  {
    hide AlternativeEdges, EdgeOf, Low16, IsDependency;
    r := edges;
    var alts := c.alternatives;
    var orEdge := IsDependency(kind) && c.cut;
    var orIndex := |r|;
    if orEdge { r := r + [Edge(VER_NULL, kind + 1, c.text, 0)]; }
    var k := 0;
    NoAlternatives(kind, alts);
    CountUp(0);
    while k < |alts|
      invariant 0 <= k <= |alts| && |r| == orIndex + (if orEdge then 1 else 0) + k && r[..orIndex] == edges
      invariant orEdge ==> r[orIndex] == Edge(VER_NULL, kind + 1, c.text, Low16(k))
      invariant r[|r| - k..] == AlternativeEdges(kind, alts[..k])
    {
      AlternativesSnoc(kind, alts, k);
      CountUp(k);
      ghost var tail := r[|r| - k..];
      if orEdge { r := r[orIndex := r[orIndex].(version := Low16(r[orIndex].version + 1))]; }
      assert r[|r| - k..] == tail;
      r := r + [EdgeOf(kind, alts[k])];
      k := k + 1;
      assert r[|r| - k..] == tail + [EdgeOf(kind, alts[k - 1])];
    }
    assert alts[..k] == alts;
    assert r == edges + r[orIndex..] && r[orIndex..] == (if orEdge then [r[orIndex]] else []) + r[|r| - k..];
  }

  lemma {:induction false} NoAlternatives(kind: nat, alts: seq<Alternative>)
    ensures AlternativeEdges(kind, alts[..0]) == []
  {
  }

  // ----- cutting a line

  const COMMA: Char := 44
  const BAR: Char := 124
  const SPACE: Char := 32

  /** How many characters other than d, or only d, a string starts with: strcspn and strspn for one character. */
  function Span(s: Text, d: Char, only: bool): (n: nat)
    ensures n <= |s| && (forall i :: 0 <= i < n ==> (s[i] == d) == only) && (n < |s| ==> (s[n] == d) != only)
  {
    if s != [] && (s[0] == d) == only then 1 + Span(s[1..], d, only) else 0
  }

  /** The tokens of strtok_r: the longest stretches without the delimiter, none of them empty. */
  function Tokens(s: Text, d: Char): seq<Text>
    decreases |s|
  {
    var t := s[Span(s, d, true)..];
    if t == [] then [] else [t[..Span(t, d, false)]] + Tokens(t[Span(t, d, false)..], d)
  }

  /** The tokens that are still to come: the one at hand, if any, and those of the rest. */
  function Ahead(field: Option<Text>, others: seq<Text>): seq<Text> {
    if field.None? then [] else [field.value] + others
  }

  /** One call of strtok_r: the next token, if there is one, and what is left of the string. */
  method StrTok(s: Text, d: Char) returns (token: Option<Text>, rest: Text)
    ensures Tokens(s, d) == Ahead(token, Tokens(rest, d))
    ensures token.Some? ==> |rest| < |s| && token.value != [] && d !in token.value
  {
    var i := 0;
    while i < |s| && s[i] == d
      invariant 0 <= i <= |s| && forall k :: 0 <= k < i ==> s[k] == d
    {
      i := i + 1;
    }
    SpanIs(s, d, true, i);
    if i == |s| { return None, []; }
    var t := s[i..];
    var j := 0;
    while j < |t| && t[j] != d
      invariant 0 <= j <= |t| && forall k :: 0 <= k < j ==> t[k] != d
    {
      j := j + 1;
    }
    SpanIs(t, d, false, j);
    return Some(t[..j]), t[j..];
  }

  lemma {:induction false} SpanIs(s: Text, d: Char, only: bool, n: nat)
    requires n <= |s| && (forall i :: 0 <= i < n ==> (s[i] == d) == only) && (n < |s| ==> (s[n] == d) != only)
    ensures Span(s, d, only) == n
  {
    if n > 0 { SpanIs(s[1..], d, only, n - 1); }
  }

  function WithoutSpaces(field: Text): Text {
    field[Span(field, SPACE, true)..]
  }

  /** The clause of a field: strcmp tells whether the first token is the whole field. */
  function ClauseOf(field: Text, index: Text -> nat, alternative: Text -> Alternative): Clause {
    var ts := Tokens(field, BAR);
    Clause(index(field), ts != [] && field != ts[0], seq(|ts|, (i: nat) requires i < |ts| => alternative(ts[i])))
  }

  /** The clauses of the fields of a line. */
  function ClausesOf(fields: seq<Text>, index: Text -> nat, alternative: Text -> Alternative): seq<Clause> {
    seq(|fields|, (i: nat) requires i < |fields| => ClauseOf(WithoutSpaces(fields[i]), index, alternative))
  }

  /** strtok_r finds no alternative in the field and returns a null pointer. */
  predicate NoAlternative(field: Text) {
    Tokens(WithoutSpaces(field), BAR) == []
  }

  /** The line has no field, or a field of it has no alternative: the null pointer of strtok_r is followed. */
  predicate Crashes(line: Text) {
    Tokens(line, COMMA) == [] || exists i :: 0 <= i < |Tokens(line, COMMA)| && NoAlternative(Tokens(line, COMMA)[i])
  }

  datatype Split = Split(edges: seq<Edge>) | NullDereference

  lemma {:induction false} NoTokenExactly(s: Text, d: Char)
    ensures Tokens(s, d) == [] <==> forall i :: 0 <= i < |s| ==> s[i] == d
  {
    var n := Span(s, d, true);
    if n < |s| { assert s[n..] != []; }
  }

  /** The field is n spaces and bars behind them. */
  predicate SpacesThenBars(field: Text, n: nat) {
    && n <= |field| && (forall i :: 0 <= i < n ==> field[i] == SPACE)
    && forall i :: n <= i < |field| ==> field[i] == BAR
  }

  lemma {:induction false} NoAlternativeExactly(field: Text)
    ensures NoAlternative(field) <==> exists n: nat :: SpacesThenBars(field, n)
  {
    hide Tokens;
    var n := Span(field, SPACE, true);
    var t := field[n..];
    NoTokenExactly(t, BAR);
    if NoAlternative(field) {
      forall i | n <= i < |field| ensures field[i] == BAR { assert t[i - n] == BAR; }
      assert SpacesThenBars(field, n);
    }
    forall m: nat | SpacesThenBars(field, m) ensures NoAlternative(field) {
      assert m < |field| ==> field[m] == BAR;
      assert n == m;
    }
  }

  /** Which lines crash, in their characters: those of commas only, and those with a field of spaces and bars. */
  lemma {:induction false} CrashesExactly(line: Text)
    ensures Crashes(line) <==>
              || (forall i :: 0 <= i < |line| ==> line[i] == COMMA)
              || exists i, n: nat :: 0 <= i < |Tokens(line, COMMA)| && SpacesThenBars(Tokens(line, COMMA)[i], n)
  {
    hide Tokens, NoAlternative, SpacesThenBars;
    NoTokenExactly(line, COMMA);
    var fields := Tokens(line, COMMA);
    forall i | 0 <= i < |fields| ensures NoAlternative(fields[i]) <==> exists n: nat :: SpacesThenBars(fields[i], n) {
      NoAlternativeExactly(fields[i]);
    }
  }

  /** A space behind the last comma is enough: "a, " has a field of one space. */
  lemma {:induction false} CrashesAtTrailingSpace()
    ensures Crashes([97, COMMA, SPACE])
  {
    var line: Text := [97, COMMA, SPACE];
    SpanIs(line, COMMA, true, 0);
    SpanIs(line, COMMA, false, 1);
    assert line[0..] == line && line[1..] == [COMMA, SPACE] && line[..1] == [97];
    SpanIs([COMMA, SPACE], COMMA, true, 1);
    var last: Text := [SPACE];
    SpanIs(last, COMMA, false, 1);
    assert [COMMA, SPACE][1..] == last && last[..1] == last && last[1..] == [];
    assert Tokens([COMMA, SPACE], COMMA) == [last] + Tokens([], COMMA);
    assert Tokens(line, COMMA)[1] == [SPACE];
    assert SpacesThenBars([SPACE], 1);
    NoAlternativeExactly([SPACE]);
    assert NoAlternative(Tokens(line, COMMA)[1]);
  }

  lemma {:induction false} TokensLack(s: Text, d: Char)
    ensures forall i :: 0 <= i < |Tokens(s, d)| ==> d !in Tokens(s, d)[i]
    decreases |s|
  {
    hide Span;
    var t := s[Span(s, d, true)..];
    if t != [] {
      var n := Span(t, d, false);
      TokensLack(t[n..], d);
      assert d !in t[..n];
      assert Tokens(s, d) == [t[..n]] + Tokens(t[n..], d);
    }
  }

  /** A string without the delimiter is its only token. */
  lemma {:induction false} OneToken(s: Text, d: Char)
    requires d !in s
    ensures |Tokens(s, d)| <= 1
  {
    SpanIs(s, d, true, 0);
    SpanIs(s, d, false, |s|);
    assert s[0..] == s && s[|s|..] == [];
    if s != [] { assert Tokens([], d) == []; }
  }

  /** More than one alternative means that cutting has changed the field. */
  lemma {:induction false} ClauseWellCut(field: Text, index: Text -> nat, alternative: Text -> Alternative)
    requires Tokens(field, BAR) != []
    ensures WellCut(ClauseOf(field, index, alternative))
  {
    TokensLack(field, BAR);
    if BAR !in field { OneToken(field, BAR); }
  }

  /** Comparing the field with its first token finds out whether there is a bar in it. */
  lemma {:induction false} CutMeans(field: Text, index: Text -> nat, alternative: Text -> Alternative)
    requires Tokens(field, BAR) != []
    ensures ClauseOf(field, index, alternative).cut <==> BAR in field
  {
    TokensLack(field, BAR);
    if BAR !in field { WholeToken(field, BAR); }
  }

  lemma {:induction false} WholeToken(s: Text, d: Char)
    requires d !in s && s != []
    ensures Tokens(s, d) == [s]
  {
    SpanIs(s, d, true, 0);
    SpanIs(s, d, false, |s|);
    assert s[0..] == s && s[..|s|] == s && s[|s|..] == [];
    assert Tokens([], d) == [];
  }

  /** add_split_dependencies: appends the edges of a line, unless a null pointer is followed. */
  method AddSplitDependencies(edges: seq<Edge>, kind: nat, line: Text, index: Text -> nat,
      alternative: Text -> Alternative)
    returns (r: Split)
    requires kind % 2 == 1
    ensures r == NullDereference <==> Crashes(line)
    ensures r.Split? ==>
              var cs := ClausesOf(Tokens(line, COMMA), index, alternative);
              && (forall c :: c in cs ==> WellCut(c))
              && ((forall c :: c in cs ==> Countable(c)) ==> WellFormed(Line(kind, cs)))
              && r.edges == edges + LineEdges(kind, cs)
  {
    hide *;
    ghost var fields := Tokens(line, COMMA);
    ghost var cs := ClausesOf(fields, index, alternative);
    var made := edges;
    ghost var n := 0;
    LineStart(fields, kind, index, alternative);
    var field, rest := StrTok(line, COMMA);
    CrashesAt(line, field, Tokens(rest, COMMA));
    if field.None? { return NullDereference; }
    while field.Some?
      invariant 0 <= n <= |fields| && fields[n..] == Ahead(field, Tokens(rest, COMMA))
      invariant forall i :: 0 <= i < n ==> !NoAlternative(fields[i])
      invariant made == edges + LineEdges(kind, cs[..n])
      decreases if field.None? then 0 else |rest| + 1
    {
      NextField(fields, n, field, Tokens(rest, COMMA));
      var c := ClauseOf(WithoutSpaces(field.value), index, alternative);
      FieldClause(fields, n, index, alternative);
      if c.alternatives == [] { return NullDereference; }
      made := AddClause(made, kind, c);
      LineSnoc(kind, cs, n);
      n := n + 1;
      field, rest := StrTok(rest, COMMA);
    }
    LineEnd(fields, n, Tokens(rest, COMMA), kind, index, alternative);
    r := Split(made);
  }

  lemma {:induction false} CrashesAt(line: Text, field: Option<Text>, others: seq<Text>)
    requires Tokens(line, COMMA) == Ahead(field, others)
    ensures field.None? ==> Crashes(line)
    ensures field.Some? ==> Tokens(line, COMMA) != []
    ensures forall i :: 0 <= i < |Tokens(line, COMMA)| && NoAlternative(Tokens(line, COMMA)[i]) ==> Crashes(line)
    ensures field.Some? && Crashes(line) ==>
              exists i :: 0 <= i < |Tokens(line, COMMA)| && NoAlternative(Tokens(line, COMMA)[i])
  {
    hide Tokens, NoAlternative;
  }

  lemma {:induction false} NextField(fields: seq<Text>, n: nat, field: Option<Text>, others: seq<Text>)
    requires n <= |fields| && field.Some? && fields[n..] == Ahead(field, others)
    ensures n < |fields| && fields[n] == field.value && fields[n + 1..] == others
  {
    assert fields[n] == fields[n..][0];
    assert fields[n + 1..] == fields[n..][1..];
  }

  lemma {:induction false} LineStart(fields: seq<Text>, kind: nat, index: Text -> nat, alternative: Text -> Alternative)
    ensures var cs := ClausesOf(fields, index, alternative);
            |cs| == |fields| && LineEdges(kind, cs[..0]) == []
  {
  }

  lemma {:induction false} FieldClause(fields: seq<Text>, n: nat, index: Text -> nat, alternative: Text -> Alternative)
    requires n < |fields|
    ensures var field, cs := WithoutSpaces(fields[n]), ClausesOf(fields, index, alternative);
            && n < |cs| && cs[n] == ClauseOf(field, index, alternative)
            && (NoAlternative(fields[n]) <==> cs[n].alternatives == [])
            && (!NoAlternative(fields[n]) ==> WellCut(cs[n]))
  {
    hide Tokens, WellCut;
    if !NoAlternative(fields[n]) { ClauseWellCut(WithoutSpaces(fields[n]), index, alternative); }
  }

  lemma {:induction false} LineEnd(fields: seq<Text>, n: nat, others: seq<Text>, kind: nat, index: Text -> nat,
      alternative: Text -> Alternative)
    requires n <= |fields| && fields[n..] == Ahead(None, others) && kind % 2 == 1
    requires forall i :: 0 <= i < n ==> !NoAlternative(fields[i])
    ensures var cs := ClausesOf(fields, index, alternative);
            && n == |fields| && cs[..n] == cs && (forall c :: c in cs ==> WellCut(c))
            && ((forall c :: c in cs ==> Countable(c)) ==> WellFormed(Line(kind, cs)))
  {
    hide Tokens, ClauseOf, WellCut, NoAlternative, WithoutSpaces;
    var cs := ClausesOf(fields, index, alternative);
    forall c | c in cs ensures WellCut(c) {
      var i :| 0 <= i < |cs| && c == cs[i];
      FieldClause(fields, i, index, alternative);
    }
  }

  // ----- the packages

  datatype Verdict = Pass | Unmet | Corrupt

  class Packages {
    const table: array<Option<Package>>
    const names: Names
    /** The status of the package of a name. */
    const status: nat -> Status

    constructor (names: Names, status: nat -> Status)
      ensures this.names == names && this.status == status && Valid() && fresh(table)
    {
      this.names, this.status := names, status;
      table := new Option<Package>[PACKAGE_HASH_PRIME + 1](_ => None);
    }

    function NameOf(v: nat): Text
      reads names.table
    {
      if v < names.table.Length && names.table[v].Some? then names.table[v].value else []
    }

    function Slot(name: nat, n: nat): (i: nat)
      reads names.table
      ensures i < PACKAGE_HASH_PRIME
    {
      Path(names.hashNum(NameOf(name)), n, PACKAGE_HASH_PRIME)
    }

    /** The package has the name and a version that the operator allows. */
    predicate Matches(p: Package, name: nat, version: nat, op: Operator)
      reads names.table
    {
      p.name == name && Allows(op, Order3(NameOf(p.version), NameOf(version)))
    }

    /** Slot i is the n-th on the path of the name, behind packages only. */
    ghost predicate OnPath(name: nat, i: nat, n: nat)
      requires PACKAGE_HASH_PRIME <= table.Length
      reads table, names.table
    {
      Slot(name, n) == i && forall m :: 0 <= m < n ==> table[Slot(name, m)].Some?
    }

    ghost predicate Reached(i: nat)
      requires i < PACKAGE_HASH_PRIME <= table.Length
      reads table, names.table
    {
      table[i].Some? ==> exists n: nat :: OnPath(table[i].value.name, i, n)
    }

    ghost predicate Valid()
      reads table, names.table
    {
      table.Length == PACKAGE_HASH_PRIME + 1 && forall i :: 0 <= i < PACKAGE_HASH_PRIME ==> Reached(i)
    }

    lemma {:induction false} IsSized()
      requires Valid()
      ensures table.Length == PACKAGE_HASH_PRIME + 1 && 2 <= PACKAGE_HASH_PRIME
    {
    }

    /** The search has passed n packages, none of which matches. */
    ghost predicate Misses(name: nat, version: nat, op: Operator, n: nat)
      requires PACKAGE_HASH_PRIME <= table.Length
      reads table, names.table
    {
      forall m :: 0 <= m < n ==> Missed(name, version, op, m)
    }

    ghost predicate Missed(name: nat, version: nat, op: Operator, m: nat)
      requires PACKAGE_HASH_PRIME <= table.Length
      reads table, names.table
    {
      var o := table[Slot(name, m)];
      o.Some? && !Matches(o.value, name, version, op)
    }

    /** Slot i holds the first matching package on the path. */
    ghost predicate Found(name: nat, version: nat, op: Operator, i: nat)
      requires PACKAGE_HASH_PRIME <= table.Length
      reads table, names.table
    {
      && i < PACKAGE_HASH_PRIME && table[i].Some? && Matches(table[i].value, name, version, op)
      && exists n: nat :: Slot(name, n) == i && Misses(name, version, op, n)
    }

    lemma {:induction false} MissOrder(name: nat, version: nat, op: Operator, n: nat, m: nat)
      requires Valid() && Misses(name, version, op, m)
      ensures n < m ==> table[Slot(name, n)].Some? && !Matches(table[Slot(name, n)].value, name, version, op)
    {
      if n < m { assert Missed(name, version, op, n); }
    }

    /** search_package_hashtable: the first matching package, or a free slot if there is none at all. */
    method SearchPackage(name: nat, version: nat, op: Operator) returns (probe: nat)
      requires Valid() && HasFree(table[..], PACKAGE_HASH_PRIME)
      ensures probe < PACKAGE_HASH_PRIME
      ensures table[probe].Some? ==> Found(name, version, op, probe)
      ensures table[probe].None? ==>
                forall i :: 0 <= i < PACKAGE_HASH_PRIME && table[i].Some? ==>
                          !Matches(table[i].value, name, version, op)
    {
      hide *;
      IsSized();
      ghost var last := FreeAhead(name);
      var decrement;
      probe, decrement := MakeHash(names.hashNum(NameOf(name)), PACKAGE_HASH_PRIME);
      FirstSlot(name, version, op);
      ghost var n: nat := 0;
      while table[probe].Some?
        invariant probe < PACKAGE_HASH_PRIME
        invariant Slot(name, n) == probe && Misses(name, version, op, n) && n <= last
        decreases last - n
      {
        MatchesParts(table[probe].value, name, version, op);
        FoundHere(name, version, op, n, probe);
        if table[probe].value.name == name {
          if op == VER_ANY { return; }
          var ok := TestVersion(NameOf(table[probe].value.version), NameOf(version), op);
          if ok { return; }
        }
        NextSlot(name, version, op, n, last, probe);
        n := n + 1;
        probe := if probe < decrement then probe + PACKAGE_HASH_PRIME - decrement else probe - decrement;
      }
      NoneMatches(name, version, op, n);
    }

    /** A free slot lies on every path. */
    lemma {:induction false} FreeAhead(name: nat) returns (n: nat)
      requires Valid() && HasFree(table[..], PACKAGE_HASH_PRIME)
      ensures table[Slot(name, n)].None?
    {
      hide Path;
      var f :| 0 <= f < PACKAGE_HASH_PRIME && table[..][f].None?;
      SizesArePrime();
      n := PathReaches(names.hashNum(NameOf(name)), f, PACKAGE_HASH_PRIME);
    }

    lemma {:induction false} FirstSlot(name: nat, version: nat, op: Operator)
      requires Valid()
      ensures Slot(name, 0) == Start(names.hashNum(NameOf(name)), PACKAGE_HASH_PRIME) && Misses(name, version, op, 0)
    {
      hide Path, Start;
      PathStart(names.hashNum(NameOf(name)), PACKAGE_HASH_PRIME);
    }

    lemma {:induction false} MatchesParts(p: Package, name: nat, version: nat, op: Operator)
      ensures Matches(p, name, version, op)
              <==> p.name == name && (op == VER_ANY || Allows(op, Order3(NameOf(p.version), NameOf(version))))
    {
      hide Order3;
    }

    lemma {:induction false} FoundHere(name: nat, version: nat, op: Operator, n: nat, i: nat)
      requires Valid() && i < PACKAGE_HASH_PRIME
      requires table[i].Some? && Slot(name, n) == i && Misses(name, version, op, n)
      ensures Matches(table[i].value, name, version, op) ==> Found(name, version, op, i)
    {
      hide Slot, Misses, Matches;
    }

    /** The package in the slot does not match: on to the next slot, which is not behind the free one. */
    lemma {:induction false} NextSlot(name: nat, version: nat, op: Operator, n: nat, last: nat, probe: nat)
      requires Valid() && Slot(name, n) == probe && Misses(name, version, op, n) && n <= last
      requires table[probe].Some? && !Matches(table[probe].value, name, version, op) && table[Slot(name, last)].None?
      ensures Misses(name, version, op, n + 1) && n + 1 <= last
      ensures var d := Decrement(names.hashNum(NameOf(name)), PACKAGE_HASH_PRIME);
              Slot(name, n + 1) == if probe < d then probe + PACKAGE_HASH_PRIME - d else probe - d
    {
      hide Path, Matches, Decrement;
      assert Missed(name, version, op, n);
      PathNext(names.hashNum(NameOf(name)), n, PACKAGE_HASH_PRIME);
    }

    lemma {:induction false} NoneMatches(name: nat, version: nat, op: Operator, n: nat)
      requires Valid() && table[Slot(name, n)].None? && Misses(name, version, op, n)
      ensures forall i :: 0 <= i < PACKAGE_HASH_PRIME && table[i].Some? ==> !Matches(table[i].value, name, version, op)
    {
      hide Path, Order3, Allows;
      forall i | 0 <= i < PACKAGE_HASH_PRIME && table[i].Some? ensures !Matches(table[i].value, name, version, op) {
        if table[i].value.name == name {
          assert Reached(i);
          var m: nat :| OnPath(name, i, m);
          SomeBefore(name, i, m, n);
          MissOrder(name, version, op, m, n);
        }
      }
    }

    lemma {:induction false} SomeBefore(name: nat, i: nat, m: nat, n: nat)
      requires Valid() && i < PACKAGE_HASH_PRIME && OnPath(name, i, m) && table[i].Some?
      ensures n <= m ==> table[Slot(name, n)].Some?
    {
      if n < m { assert table[Slot(name, n)].Some?; }
    }

    // ----- what satisfies a dependency

    /** package_satisfies_dependency: installed already, or for an ordinary dependency, to be installed. */
    predicate Satisfies(name: nat, kind: nat) {
      match status(name)
      case Unknown => false
      case Known(wanted, installed) => (kind == EDGE_PRE_DEPENDS && installed) || (kind == EDGE_DEPENDS && wanted)
    }

    ghost predicate Provides(i: nat, needle: nat)
      requires i < table.Length
      reads table
    {
      table[i].Some? && exists j :: 0 <= j < |table[i].value.edges| && IsProvides(table[i].value.edges[j], needle)
    }

    predicate IsProvides(e: Edge, needle: nat) {
      e.kind == EDGE_PROVIDES && e.name == needle
    }

    /** Some package with the name and an allowed version satisfies the dependency, or some package does that provides
        the name: wherever in the table they are. */
    ghost predicate Met(e: Edge)
      requires PACKAGE_HASH_PRIME <= table.Length
      reads table, names.table
    {
      || (exists i: nat :: i < PACKAGE_HASH_PRIME && MetDirectly(e, i))
      || (exists i: nat :: i < PACKAGE_HASH_PRIME && MetByProvider(e, i))
    }

    ghost predicate MetDirectly(e: Edge, i: nat)
      requires i < table.Length
      reads table, names.table
    {
      table[i].Some? && Matches(table[i].value, e.name, e.version, e.op) && Satisfies(table[i].value.name, e.kind)
    }

    ghost predicate MetByProvider(e: Edge, i: nat)
      requires i < table.Length
      reads table
    {
      Provides(i, e.name) && Satisfies(table[i].value.name, e.kind)
    }

    /** search_for_provides: the next package behind startAt that provides needle, or -1. */
    method SearchForProvides(needle: nat, startAt: int) returns (r: int)
      requires Valid() && -1 <= startAt < PACKAGE_HASH_PRIME
      ensures r == -1 || (startAt < r < PACKAGE_HASH_PRIME && Provides(r, needle))
      ensures forall i: nat :: startAt < i < (if r == -1 then PACKAGE_HASH_PRIME else r) ==> !Provides(i, needle)
    {
      var i := startAt + 1;
      while i < PACKAGE_HASH_PRIME
        invariant startAt < i <= PACKAGE_HASH_PRIME
        invariant forall k: nat :: startAt < k < i ==> !Provides(k, needle)
      {
        if table[i].Some? {
          var edges := table[i].value.edges;
          var j := 0;
          while j < |edges|
            invariant 0 <= j <= |edges| && forall k :: 0 <= k < j ==> !IsProvides(edges[k], needle)
          {
            if IsProvides(edges[j], needle) { return i; }
            j := j + 1;
          }
        }
        i := i + 1;
      }
      return -1;
    }

    /** The part of check_deps that looks for a package to satisfy one edge. */
    method Look(e: Edge) returns (met: bool)
      requires Valid() && HasFree(table[..], PACKAGE_HASH_PRIME)
      ensures met == Met(e)
    {
      hide Found, Matches, Provides, Satisfies, Valid, MetDirectly, MetByProvider;
      IsSized();
      var p := SearchPackage(e.name, e.version, e.op);
      met := false;
      if table[p].Some? { met := Satisfies(table[p].value.name, e.kind); }
      DirectlyOrNot(e, p);
      if !met {
        var provider := -1;
        var more := true;
        while more
          invariant -1 <= provider < PACKAGE_HASH_PRIME && (met ==> !more)
          invariant met ==> 0 <= provider && MetByProvider(e, provider)
          invariant !met ==>
                    forall i: nat :: i < (if more then provider + 1 else PACKAGE_HASH_PRIME) ==> !MetByProvider(e, i)
          decreases more, PACKAGE_HASH_PRIME - provider
        {
          var next := SearchForProvides(e.name, provider);
          NotProvided(e);
          if next == -1 {
            more := false;
          } else {
            provider := next;
            met := ProviderMeets(e, provider);
            more := !met;
          }
        }
      }
    }

    method ProviderMeets(e: Edge, provider: nat) returns (met: bool)
      requires provider < table.Length && Provides(provider, e.name)
      ensures met == MetByProvider(e, provider)
    {
      met := Satisfies(table[provider].value.name, e.kind);
    }

    lemma {:induction false} NotProvided(e: Edge)
      ensures forall i: nat :: i < table.Length && !Provides(i, e.name) ==> !MetByProvider(e, i)
    {
    }

    /** Packages of one name satisfy the same dependencies, so that the one found speaks for all of them. */
    lemma {:induction false} DirectlyOrNot(e: Edge, p: nat)
      requires Valid() && p < PACKAGE_HASH_PRIME && (table[p].Some? ==> Found(e.name, e.version, e.op, p))
      requires table[p].None? ==>
                forall i :: 0 <= i < PACKAGE_HASH_PRIME && table[i].Some? ==>
                          !Matches(table[i].value, e.name, e.version, e.op)
      ensures (exists i: nat :: i < PACKAGE_HASH_PRIME && MetDirectly(e, i)) <==>
                table[p].Some? && Satisfies(table[p].value.name, e.kind)
    {
      hide Satisfies, Allows, Order3;
      if table[p].Some? && Satisfies(table[p].value.name, e.kind) { assert MetDirectly(e, p); }
    }

    /** The package has the name and a version that is allowed, or provides the name. */
    ghost predicate Answers(p: Package, a: Alternative)
      reads names.table
    {
      || (p.name == a.name && Allows(a.op, Order3(NameOf(p.version), NameOf(a.version))))
      || exists j :: 0 <= j < |p.edges| && p.edges[j].kind == EDGE_PROVIDES && p.edges[j].name == a.name
    }

    /** A dependency is met exactly if a package that answers it is to be installed, a pre-dependency exactly if one is
        installed already; edges of other kinds are never met. */
    lemma {:induction false} MetMeans(kind: nat, a: Alternative)
      requires PACKAGE_HASH_PRIME <= table.Length
      ensures kind == EDGE_DEPENDS ==>
                (Met(EdgeOf(kind, a)) <==>
                  exists i: nat :: i < PACKAGE_HASH_PRIME && table[i].Some? && Answers(table[i].value, a)
                    && status(table[i].value.name).Known? && status(table[i].value.name).wanted)
      ensures kind == EDGE_PRE_DEPENDS ==>
                (Met(EdgeOf(kind, a)) <==>
                  exists i: nat :: i < PACKAGE_HASH_PRIME && table[i].Some? && Answers(table[i].value, a)
                    && status(table[i].value.name).Known? && status(table[i].value.name).installed)
      ensures kind != EDGE_DEPENDS && kind != EDGE_PRE_DEPENDS ==> !Met(EdgeOf(kind, a))
    {
      hide Allows, Order3;
      var e := EdgeOf(kind, a);
      forall i: nat | i < PACKAGE_HASH_PRIME && table[i].Some?
        ensures Matches(table[i].value, e.name, e.version, e.op) || Provides(i, e.name)
                <==> Answers(table[i].value, a)
      {
        ProvidesMeans(i, e.name);
      }
      MetWhere(e);
    }

    lemma {:induction false} ProvidesMeans(i: nat, needle: nat)
      requires i < table.Length && table[i].Some?
      ensures Provides(i, needle) <==>
                exists j :: 0 <= j < |table[i].value.edges|
                         && table[i].value.edges[j].kind == EDGE_PROVIDES && table[i].value.edges[j].name == needle
    {
      if Provides(i, needle) {
        var j :| 0 <= j < |table[i].value.edges| && IsProvides(table[i].value.edges[j], needle);
      }
      forall j | 0 <= j < |table[i].value.edges| && table[i].value.edges[j].kind == EDGE_PROVIDES
                 && table[i].value.edges[j].name == needle
        ensures Provides(i, needle)
      {
        assert IsProvides(table[i].value.edges[j], needle);
      }
    }

    lemma {:induction false} MetWhere(e: Edge)
      requires PACKAGE_HASH_PRIME <= table.Length
      ensures Met(e) <==>
                exists i: nat :: i < PACKAGE_HASH_PRIME && table[i].Some? && Satisfies(table[i].value.name, e.kind)
                              && (Matches(table[i].value, e.name, e.version, e.op) || Provides(i, e.name))
    {
      hide Matches, Satisfies;
      forall i: nat | i < PACKAGE_HASH_PRIME && table[i].Some? && Satisfies(table[i].value.name, e.kind)
                      && (Matches(table[i].value, e.name, e.version, e.op) || Provides(i, e.name))
        ensures Met(e)
      {
        assert MetDirectly(e, i) || MetByProvider(e, i);
      }
    }

    // ----- the scan of check_deps

    /** The scan of the edges from here on, with n alternatives to go and the edge that opened them. */
    ghost function Scan(es: seq<Edge>, n: nat, root: Option<Edge>): Verdict
      requires PACKAGE_HASH_PRIME <= table.Length
      reads table, names.table
      decreases |es|
    {
      if es == [] then Pass
      else if es[0].kind == EDGE_OR_PRE_DEPENDS || es[0].kind == EDGE_OR_DEPENDS then
        Scan(es[1..], es[0].version, Some(es[0]))
      else if !IsDependency(es[0].kind) then Scan(es[1..], if n == 0 then 1 else n, if n == 0 then None else root)
      else
        var m, opener := if n == 0 then 0 else n - 1, if n == 0 then None else root;
        if opener.Some? && es[0].kind + 1 != opener.value.kind then Corrupt
        else if Met(es[0]) then Scan(if 1 + m <= |es| then es[1 + m..] else [], 0, opener)
        else if m == 0 then Unmet
        else Scan(es[1..], m, opener)
    }

    /** Between clauses. */
    ghost predicate Between(n: nat, root: Option<Edge>) {
      n == 0 || (n == 1 && root.None?)
    }

    ghost predicate ClauseMet(kind: nat, c: Clause)
      requires PACKAGE_HASH_PRIME <= table.Length
      reads table, names.table
    {
      IsDependency(kind) ==> exists k :: 0 <= k < |c.alternatives| && Met(EdgeOf(kind, c.alternatives[k]))
    }

    /** The alternatives of a clause, after its opening edge. */
    lemma {:induction false} ScanAlternatives(kind: nat, alts: seq<Alternative>, rest: seq<Edge>, opener: Edge)
      requires Valid() && IsDependency(kind) && alts != [] && opener.kind == kind + 1
      ensures Scan(AlternativeEdges(kind, alts) + rest, |alts|, Some(opener))
           == if exists k :: 0 <= k < |alts| && Met(EdgeOf(kind, alts[k])) then Scan(rest, 0, Some(opener)) else Unmet
      decreases |alts|
    {
      hide Met, Valid, Scan, EdgeOf;
      IsSized();
      var tail := AlternativeEdges(kind, alts[1..]);
      assert AlternativeEdges(kind, alts) + rest == [EdgeOf(kind, alts[0])] + (tail + rest);
      assert (tail + rest)[|alts| - 1..] == rest;
      ScanAlternative(kind, alts[0], tail + rest, |alts| - 1, opener);
      if !Met(EdgeOf(kind, alts[0])) && |alts| > 1 {
        ScanAlternatives(kind, alts[1..], rest, opener);
        assert forall k :: 0 < k < |alts| ==> alts[k] == alts[1..][k - 1];
      }
    }

    /** One alternative that m others follow. */
    lemma {:induction false} ScanAlternative(kind: nat, a: Alternative, others: seq<Edge>, m: nat, opener: Edge)
      requires Valid() && IsDependency(kind) && opener.kind == kind + 1 && m <= |others|
      ensures Scan([EdgeOf(kind, a)] + others, 1 + m, Some(opener))
              == if Met(EdgeOf(kind, a)) then Scan(others[m..], 0, Some(opener))
                 else if m == 0 then Unmet
                 else Scan(others, m, Some(opener))
    {
      hide Met, Valid;
      IsSized();
      var es := [EdgeOf(kind, a)] + others;
      assert es[1..] == others && es[1 + m..] == others[m..];
    }

    /** Edges that are no dependencies are passed over. */
    lemma {:induction false} ScanOthers(kind: nat, alts: seq<Alternative>, rest: seq<Edge>, n: nat, root: Option<Edge>)
      returns (n': nat, root': Option<Edge>)
      requires Valid() && kind % 2 == 1 && !IsDependency(kind) && Between(n, root)
      ensures Between(n', root') && Scan(AlternativeEdges(kind, alts) + rest, n, root) == Scan(rest, n', root')
      decreases |alts|
    {
      hide Met, Valid;
      IsSized();
      if alts == [] {
        n', root' := n, root;
        assert AlternativeEdges(kind, alts) + rest == rest;
      } else {
        var tail := AlternativeEdges(kind, alts[1..]);
        var es := [EdgeOf(kind, alts[0])] + tail + rest;
        assert AlternativeEdges(kind, alts) + rest == es;
        assert es[1..] == tail + rest;
        n', root' := ScanOthers(kind, alts[1..], rest, 1, None);
      }
    }

    lemma {:induction false} ScanClause(kind: nat, c: Clause, rest: seq<Edge>, n: nat, root: Option<Edge>)
      returns (n': nat, root': Option<Edge>)
      requires Valid() && kind % 2 == 1 && WellCut(c) && Countable(c) && Between(n, root)
      ensures Between(n', root')
      ensures Scan(ClauseEdges(kind, c) + rest, n, root) == if ClauseMet(kind, c) then Scan(rest, n', root') else Unmet
    {
      hide Met, Valid;
      IsSized();
      var alts := c.alternatives;
      n', root' := 0, None;
      if !IsDependency(kind) {
        assert ClauseEdges(kind, c) == AlternativeEdges(kind, alts);
        n', root' := ScanOthers(kind, alts, rest, n, root);
      } else if c.cut {
        var opener := Edge(VER_NULL, kind + 1, c.text, |alts|);
        var es := [opener] + (AlternativeEdges(kind, alts) + rest);
        assert ClauseEdges(kind, c) + rest == es;
        assert es[1..] == AlternativeEdges(kind, alts) + rest;
        ScanAlternatives(kind, alts, rest, opener);
        root' := Some(opener);
      } else {
        assert alts[1..] == [];
        var es := [EdgeOf(kind, alts[0])] + rest;
        assert ClauseEdges(kind, c) + rest == es;
        assert es[1..] == rest;
      }
    }

    lemma {:induction false} ScanLine(kind: nat, cs: seq<Clause>, rest: seq<Edge>, n: nat, root: Option<Edge>)
      returns (n': nat, root': Option<Edge>)
      requires Valid() && WellFormed(Line(kind, cs)) && Between(n, root)
      ensures Between(n', root')
      ensures Scan(LineEdges(kind, cs) + rest, n, root)
           == if forall i :: 0 <= i < |cs| ==> ClauseMet(kind, cs[i]) then Scan(rest, n', root') else Unmet
      decreases |cs|
    {
      hide Scan, ClauseMet, Valid, ClauseEdges;
      IsSized();
      if cs == [] {
        n', root' := n, root;
        assert LineEdges(kind, cs) + rest == rest;
      } else {
        assert WellCut(cs[0]) && Countable(cs[0]);
        assert LineEdges(kind, cs) + rest == ClauseEdges(kind, cs[0]) + (LineEdges(kind, cs[1..]) + rest);
        n', root' := ScanClause(kind, cs[0], LineEdges(kind, cs[1..]) + rest, n, root);
        assert forall i :: 0 < i < |cs| ==> cs[i] == cs[1..][i - 1];
        n', root' := ScanLine(kind, cs[1..], rest, n', root');
      }
    }

    ghost predicate LineMet(l: Line)
      requires PACKAGE_HASH_PRIME <= table.Length
      reads table, names.table
    {
      forall i :: 0 <= i < |l.clauses| ==> ClauseMet(l.kind, l.clauses[i])
    }

    lemma {:induction false} ScanLines(ls: seq<Line>, n: nat, root: Option<Edge>)
      requires Valid() && (forall i :: 0 <= i < |ls| ==> WellFormed(ls[i])) && Between(n, root)
      ensures Scan(AllEdges(ls), n, root) == if forall i :: 0 <= i < |ls| ==> LineMet(ls[i]) then Pass else Unmet
      decreases |ls|
    {
      hide ClauseMet, Valid, LineEdges, Met;
      IsSized();
      if ls != [] {
        assert WellFormed(ls[0]);
        var n', root' := ScanLine(ls[0].kind, ls[0].clauses, AllEdges(ls[1..]), n, root);
        assert forall i :: 0 < i < |ls| ==> ls[i] == ls[1..][i - 1];
        ScanLines(ls[1..], n', root');
      }
    }

    /** The scan of edges made from lines passes exactly if each clause of each dependency line has an alternative
        that is met, and never finds them corrupt. */
    lemma {:induction false} ScanMeans(ls: seq<Line>)
      requires Valid() && forall i :: 0 <= i < |ls| ==> WellFormed(ls[i])
      ensures Scan(AllEdges(ls), 0, None) == if forall i :: 0 <= i < |ls| ==> LineMet(ls[i]) then Pass else Unmet
    {
      hide Scan, Valid, LineMet;
      IsSized();
      ScanLines(ls, 0, None);
    }

    /** The loop of check_deps over the edges of one package. */
    method ScanEdges(edges: seq<Edge>) returns (v: Verdict)
      requires Valid() && HasFree(table[..], PACKAGE_HASH_PRIME)
      ensures v == Scan(edges, 0, None)
    {
      hide Met, Valid;
      IsSized();
      var j, numberOfAlternatives, rootOfAlternatives := 0, 0, None;
      assert edges[0..] == edges;
      while j < |edges|
        invariant 0 <= j && 0 <= numberOfAlternatives
        invariant Scan(if j <= |edges| then edges[j..] else [], numberOfAlternatives, rootOfAlternatives)
                == Scan(edges, 0, None)
        decreases |edges| - j
      {
        var e := edges[j];
        assert edges[j..][1..] == edges[j + 1..];
        if e.kind == EDGE_OR_PRE_DEPENDS || e.kind == EDGE_OR_DEPENDS {
          numberOfAlternatives, rootOfAlternatives := e.version, Some(e);
          j := j + 1;
          continue;
        }
        if numberOfAlternatives == 0 { numberOfAlternatives, rootOfAlternatives := 1, None; }
        if e.kind == EDGE_PRE_DEPENDS || e.kind == EDGE_DEPENDS {
          if rootOfAlternatives.Some? && e.kind != rootOfAlternatives.value.kind - 1 { return Corrupt; }
          var met := Look(e);
          numberOfAlternatives := numberOfAlternatives - 1;
          if !met && numberOfAlternatives == 0 { return Unmet; }
          if met && numberOfAlternatives != 0 {
            assert j + 1 + numberOfAlternatives <= |edges| ==>
                edges[j..][1 + numberOfAlternatives..] == edges[j + 1 + numberOfAlternatives..];
            j := j + numberOfAlternatives;
            numberOfAlternatives := 0;
          }
        }
        j := j + 1;
      }
      return Pass;
    }

    /** The package is one whose dependencies count. */
    predicate Counts(i: nat)
      requires i < table.Length
      reads table
    {
      table[i].Some? && status(table[i].value.name).Known? && status(table[i].value.name).wanted
    }

    /** The edges of the package come from these lines. */
    ghost predicate MadeFrom(i: nat, ls: seq<Line>)
      requires i < table.Length
      reads table
    {
      table[i].Some? ==> table[i].value.edges == AllEdges(ls) && forall k :: 0 <= k < |ls| ==> WellFormed(ls[k])
    }

    /** Every clause of the package has an alternative that is met. */
    ghost predicate AllMet(ls: seq<Line>)
      requires PACKAGE_HASH_PRIME <= table.Length
      reads table, names.table
    {
      forall k :: 0 <= k < |ls| ==> LineMet(ls[k])
    }

    /** The last loop of check_deps: whether the dependencies of all wanted packages are met. */
    method CheckDependencies(ghost lines: seq<seq<Line>>) returns (ok: bool)
      requires Valid() && HasFree(table[..], PACKAGE_HASH_PRIME) && |lines| == PACKAGE_HASH_PRIME
      requires forall i :: 0 <= i < PACKAGE_HASH_PRIME ==> MadeFrom(i, lines[i])
      ensures ok <==> forall i :: 0 <= i < PACKAGE_HASH_PRIME && Counts(i) ==> AllMet(lines[i])
    {
      hide Scan, Met, Valid, LineMet;
      IsSized();
      var i := 0;
      while i < PACKAGE_HASH_PRIME
        invariant 0 <= i <= PACKAGE_HASH_PRIME
        invariant forall k :: 0 <= k < i && Counts(k) ==> AllMet(lines[k])
      {
        if table[i].Some? && status(table[i].value.name).Known? && status(table[i].value.name).wanted {
          assert MadeFrom(i, lines[i]) && Counts(i);
          ScanMeans(lines[i]);
          var v := ScanEdges(table[i].value.edges);
          if v != Pass { return false; }
        }
        i := i + 1;
      }
      return true;
    }
  }
}
