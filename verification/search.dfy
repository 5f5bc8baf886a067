/**
 * The directory search of `GET /alumni/search`: the WHERE-clause builder that
 * numbers placeholders `$1, $2, …` as optional filters are added, the sort
 * whitelist, and the pagination arithmetic. Running the two queries is not
 * modelled; the builder's output (condition list, bound values, clauses) is.
 */
module Search {
  import opened Results
  import opened Seqs
  import opened Text
  import opened Tables

  /** The query-string parameters of a search; `page` and `limit` after `parseInt`. */
  datatype SearchParams = SearchParams(
    q: Option<string>,
    department: Option<string>,
    passingYear: Option<string>,
    company: Option<string>,
    available: Option<string>,
    topics: Option<string>,
    sort: Option<string>,
    page: int,
    limit: int)

  /** A value bound to a placeholder. */
  datatype SqlValue = Text(s: string) | Flag(b: bool) | Number(n: int)

  /** The column a placeholder is compared with. */
  datatype Column = Name | Department | PassingYear | Company | Available | Topic

  /**
   * One ANDed condition: the fixed visibility test, a comparison of one column
   * with placeholder `$param`, or the OR of `$p = ANY(ap.mentorship_topics)`.
   */
  datatype Condition =
    | PublicOnly
    | Compare(column: Column, param: nat)
    | AnyTopic(params: seq<nat>)

  /** The builder state: `conditions`, `values` and `idx` of the handler. */
  datatype Builder = Builder(conditions: seq<Condition>, values: seq<SqlValue>, idx: nat)

  /** A placeholder occurrence: which column it is compared with and its number. */
  datatype Slot = Slot(column: Column, param: nat)

  /** What a placeholder means once bound: a column compared with a value. */
  datatype Binding = Binding(column: Column, value: SqlValue)

  /** The integers `lo, lo + 1, …, hi - 1`. */
  function Range(lo: nat, hi: nat): (r: seq<nat>)
    requires lo <= hi
    ensures |r| == hi - lo
    ensures forall i :: 0 <= i < |r| ==> r[i] == lo + i
  {
    seq(hi - lo, i requires 0 <= i < hi - lo => lo + i)
  }

  /** The placeholders of one condition, left to right. */
  function SlotsOf(c: Condition): (r: seq<Slot>)
    ensures c.PublicOnly? ==> r == []
    ensures c.Compare? ==> r == [Slot(c.column, c.param)]
    ensures c.AnyTopic? ==>
      |r| == |c.params| && forall i :: 0 <= i < |r| ==> r[i] == Slot(Topic, c.params[i])
  {
    match c
    case PublicOnly => []
    case Compare(col, k) => [Slot(col, k)]
    case AnyTopic(ps) => seq(|ps|, i requires 0 <= i < |ps| => Slot(Topic, ps[i]))
  }

  /** The placeholders of a condition list, in the order the WHERE clause shows them. */
  function Slots(cs: seq<Condition>): seq<Slot> {
    if |cs| == 0 then [] else Slots(cs[..|cs| - 1]) + SlotsOf(cs[|cs| - 1])
  }

  /** Adding a condition adds its placeholders at the end. */
  lemma SlotsAppend(cs: seq<Condition>, c: Condition)
    ensures Slots(cs + [c]) == Slots(cs) + SlotsOf(c)
  {
    assert (cs + [c])[..|cs|] == cs;
  }

  /**
   * The builder's counting invariant: `idx` is one past the number of values,
   * and the conditions hold one placeholder per value.
   */
  predicate Consistent(b: Builder) {
    && b.idx == |b.values| + 1
    && |Slots(b.conditions)| == |b.values|
  }

  /** The placeholders of the conditions are `$1, $2, …` in the order they appear. */
  predicate Numbered(b: Builder) {
    forall i :: 0 <= i < |Slots(b.conditions)| ==> Slots(b.conditions)[i].param == i + 1
  }

  /** Placeholders paired with the values bound to them, position by position. */
  function Bind(ss: seq<Slot>, vs: seq<SqlValue>): (r: seq<Binding>)
    requires |ss| == |vs|
    ensures |r| == |vs|
    ensures forall i :: 0 <= i < |r| ==> r[i] == Binding(ss[i].column, vs[i])
  {
    seq(|vs|, i requires 0 <= i < |vs| => Binding(ss[i].column, vs[i]))
  }

  /** Pairing two lists end to end is pairing each and concatenating. */
  lemma BindAppend(s1: seq<Slot>, v1: seq<SqlValue>, s2: seq<Slot>, v2: seq<SqlValue>)
    requires |s1| == |v1| && |s2| == |v2|
    ensures Bind(s1 + s2, v1 + v2) == Bind(s1, v1) + Bind(s2, v2)
  {
    var l := Bind(s1 + s2, v1 + v2);
    var r := Bind(s1, v1) + Bind(s2, v2);
    forall i | 0 <= i < |l|
      ensures l[i] == r[i]
    {
      if i < |s1| {
        assert (s1 + s2)[i] == s1[i] && (v1 + v2)[i] == v1[i];
      } else {
        assert (s1 + s2)[i] == s2[i - |s1|] && (v1 + v2)[i] == v2[i - |v1|];
      }
    }
  }

  /** Each placeholder with the value it binds. */
  function Bindings(b: Builder): (r: seq<Binding>)
    requires Consistent(b)
    ensures |r| == |b.values|
  {
    Bind(Slots(b.conditions), b.values)
  }

  /** The builder before any filter: only the visibility condition, no values, `idx = 1`. */
  const Start := Builder([PublicOnly], [], 1)

  /** A one-placeholder filter: compare `column` with `$idx`, bind `v`, advance `idx`. */
  function AddScalar(b: Builder, column: Column, v: SqlValue): (r: Builder)
    requires Consistent(b)
    ensures Consistent(r)
    ensures r.conditions == b.conditions + [Compare(column, b.idx)]
  {
    SlotsAppend(b.conditions, Compare(column, b.idx));
    Builder(b.conditions + [Compare(column, b.idx)], b.values + [v], b.idx + 1)
  }

  /** The new placeholder binds `v` and is compared with `column`; earlier ones keep their meaning. */
  lemma AddScalarBindings(b: Builder, column: Column, v: SqlValue)
    requires Consistent(b)
    ensures Bindings(AddScalar(b, column, v)) == Bindings(b) + [Binding(column, v)]
  {
    AppendBindings(b, Compare(column, b.idx), [v], AddScalar(b, column, v));
  }

  /** The new placeholder is `$idx`, the number after the last one. */
  lemma AddScalarNumbered(b: Builder, column: Column, v: SqlValue)
    requires Consistent(b) && Numbered(b)
    ensures Numbered(AddScalar(b, column, v))
  {
    SlotsAppend(b.conditions, Compare(column, b.idx));
  }

  /** The bindings of a topic list: each topic compared with the mentor's topics. */
  function TopicBindings(ts: seq<string>): (r: seq<Binding>)
    ensures |r| == |ts|
    ensures forall i :: 0 <= i < |ts| ==> r[i] == Binding(Topic, Text(ts[i]))
  {
    seq(|ts|, i requires 0 <= i < |ts| => Binding(Topic, Text(ts[i])))
  }

  /** The values bound for a topic list, one per topic. */
  function TopicValues(ts: seq<string>): (r: seq<SqlValue>)
    ensures |r| == |ts|
    ensures forall i :: 0 <= i < |ts| ==> r[i] == Text(ts[i])
  {
    seq(|ts|, i requires 0 <= i < |ts| => Text(ts[i]))
  }

  /** The topics filter: one OR-condition over `$idx … $(idx+|ts|-1)`, one value per topic. */
  function AddTopics(b: Builder, ts: seq<string>): (r: Builder)
    requires Consistent(b)
    ensures Consistent(r)
    ensures r.conditions == b.conditions + [AnyTopic(Range(b.idx, b.idx + |ts|))]
  {
    var c := AnyTopic(Range(b.idx, b.idx + |ts|));
    SlotsAppend(b.conditions, c);
    Builder(b.conditions + [c], b.values + TopicValues(ts), b.idx + |ts|)
  }

  /**
   * Appending a condition with values for its placeholders keeps the earlier
   * bindings and binds each new placeholder's column to its value.
   */
  lemma AppendBindings(b: Builder, c: Condition, vs: seq<SqlValue>, r: Builder)
    requires Consistent(b) && |SlotsOf(c)| == |vs|
    requires r == Builder(b.conditions + [c], b.values + vs, b.idx + |vs|)
    ensures Consistent(r)
    ensures Bindings(r) == Bindings(b) + Bind(SlotsOf(c), vs)
  {
    SlotsAppend(b.conditions, c);
    BindAppend(Slots(b.conditions), b.values, SlotsOf(c), vs);
  }

  /** The topic placeholders paired with the topic values compare each topic with the mentor's topics. */
  lemma TopicPairs(lo: nat, ts: seq<string>)
    ensures Bind(SlotsOf(AnyTopic(Range(lo, lo + |ts|))), TopicValues(ts)) == TopicBindings(ts)
  {
  }

  /** The new placeholders bind the topics, each compared with the mentor's topics. */
  lemma AddTopicsBindings(b: Builder, ts: seq<string>)
    requires Consistent(b)
    ensures Bindings(AddTopics(b, ts)) == Bindings(b) + TopicBindings(ts)
  {
    AppendBindings(b, AnyTopic(Range(b.idx, b.idx + |ts|)), TopicValues(ts), AddTopics(b, ts));
    TopicPairs(b.idx, ts);
  }

  /** The topic placeholders continue the numbering from `$idx`. */
  lemma AddTopicsNumbered(b: Builder, ts: seq<string>)
    requires Consistent(b) && Numbered(b)
    ensures Numbered(AddTopics(b, ts))
  {
    SlotsAppend(b.conditions, AnyTopic(Range(b.idx, b.idx + |ts|)));
  }

  /** `s && s.trim()`: present and not blank. */
  predicate Filled(s: Option<string>) {
    s.Some? && Trim(s.value) != []
  }

  /** The text of an optional parameter, empty when it is absent. */
  function OrEmpty(s: Option<string>): (r: string)
    ensures s.Some? ==> r == s.value
    ensures s.None? ==> r == ""
  {
    if s.Some? then s.value else ""
  }

  /** `%text%`, the ILIKE pattern for a substring match. */
  function Contains(text: string): (r: string)
    ensures |r| == |text| + 2 && r[0] == '%' && r[|r| - 1] == '%' && r[1..|r| - 1] == text
  {
    "%" + text + "%"
  }

  /** `topics.split(",").map(t => t.trim())`. */
  function TopicList(topics: string): (r: seq<string>)
    ensures |r| == |Split(topics, ',')| >= 1
    ensures forall i :: 0 <= i < |r| ==> r[i] == Trim(Split(topics, ',')[i])
  {
    Map(Trim, Split(topics, ','))
  }

  /** A one-placeholder filter of the handler: whether its parameter is given, and what it compares. */
  datatype ScalarFilter = ScalarFilter(given: bool, binding: Binding)

  /** The one-placeholder filters of a search, in the order the handler tests them. */
  function ScalarFilterList(p: SearchParams): (r: seq<ScalarFilter>)
    ensures |r| == 5
  {
    [ ScalarFilter(Filled(p.q), Binding(Name, Text(Contains(Trim(OrEmpty(p.q)))))),
      ScalarFilter(Filled(p.department), Binding(Department, Text(Trim(OrEmpty(p.department))))),
      ScalarFilter(Truthy(p.passingYear), Binding(PassingYear, Text(OrEmpty(p.passingYear)))),
      ScalarFilter(Filled(p.company), Binding(Company, Text(Contains(Trim(OrEmpty(p.company)))))),
      ScalarFilter(p.available == Some("true"), Binding(Available, Flag(true))) ]
  }

  /** The comparisons of the given filters, in order: what a search asks for. */
  function Given(fs: seq<ScalarFilter>): (r: seq<Binding>)
    ensures |r| <= |fs|
  {
    if |fs| == 0 then []
    else (if fs[0].given then [fs[0].binding] else []) + Given(fs[1..])
  }

  /** The comparisons of the given filters, then one per topic when `topics` is given. */
  function Asked(fs: seq<ScalarFilter>, topics: Option<string>): seq<Binding> {
    Given(fs) + (if Truthy(topics) then TopicBindings(TopicList(topics.value)) else [])
  }

  /** Everything a search asks for: the given scalar filters, then one comparison per topic. */
  function Requested(p: SearchParams): seq<Binding> {
    Asked(ScalarFilterList(p), p.topics)
  }

  /** One filter of the handler: added as `$idx` when its parameter is given, skipped otherwise. */
  function Step(b: Builder, f: ScalarFilter): (r: Builder)
    requires Consistent(b)
    ensures Consistent(r)
    ensures |r.conditions| >= |b.conditions|
    ensures |b.conditions| >= 1 ==> r.conditions[0] == b.conditions[0]
  {
    if f.given then AddScalar(b, f.binding.column, f.binding.value) else b
  }

  /** A given filter appends its comparison to the bindings; a skipped one appends nothing. */
  lemma StepBindings(b: Builder, f: ScalarFilter)
    requires Consistent(b)
    ensures Bindings(Step(b, f)) == Bindings(b) + (if f.given then [f.binding] else [])
  {
    if f.given {
      AddScalarBindings(b, f.binding.column, f.binding.value);
    } else {
      assert Bindings(b) + [] == Bindings(b);
    }
  }

  /** A filter step keeps the placeholders numbered. */
  lemma StepNumbered(b: Builder, f: ScalarFilter)
    requires Consistent(b) && Numbered(b)
    ensures Numbered(Step(b, f))
  {
    if f.given {
      AddScalarNumbered(b, f.binding.column, f.binding.value);
    }
  }

  /** Adds each given filter in turn, numbering its placeholder `$idx` and advancing `idx`. */
  function AddAll(b: Builder, fs: seq<ScalarFilter>): (r: Builder)
    requires Consistent(b)
    ensures Consistent(r)
    ensures |r.conditions| >= |b.conditions|
    ensures |b.conditions| >= 1 ==> r.conditions[0] == b.conditions[0]
    decreases |fs|
  {
    if |fs| == 0 then b else AddAll(Step(b, fs[0]), fs[1..])
  }

  /** The placeholders `AddAll` adds bind exactly the given filters' comparisons, in order. */
  lemma {:induction false} AddAllBindings(b: Builder, fs: seq<ScalarFilter>)
    requires Consistent(b)
    ensures Bindings(AddAll(b, fs)) == Bindings(b) + Given(fs)
    decreases |fs|
  {
    if |fs| == 0 {
      assert Given(fs) == [];
    } else {
      var next := Step(b, fs[0]);
      var head := if fs[0].given then [fs[0].binding] else [];
      var rest := Given(fs[1..]);
      StepBindings(b, fs[0]);
      AddAllBindings(next, fs[1..]);
      assert AddAll(b, fs) == AddAll(next, fs[1..]);
      assert Given(fs) == head + rest;
      ConcatAssoc(Bindings(b), head, rest);
    }
  }

  /** However many filters are given, the placeholders stay numbered `$1, $2, …`. */
  lemma {:induction false} AddAllNumbered(b: Builder, fs: seq<ScalarFilter>)
    requires Consistent(b) && Numbered(b)
    ensures Numbered(AddAll(b, fs))
    decreases |fs|
  {
    if |fs| > 0 {
      StepNumbered(b, fs[0]);
      AddAllNumbered(Step(b, fs[0]), fs[1..]);
    }
  }

  /** One-placeholder filters added from the start: the visibility test stays first. */
  function AddFilters(fs: seq<ScalarFilter>): (r: Builder)
    ensures Consistent(r)
    ensures |r.conditions| >= 1 && r.conditions[0] == PublicOnly
  {
    AddAll(Start, fs)
  }

  /** From the start, the placeholders are `$1, $2, …` and bind the given filters' comparisons. */
  lemma AddFiltersBindings(fs: seq<ScalarFilter>)
    ensures Bindings(AddFilters(fs)) == Given(fs)
    ensures Numbered(AddFilters(fs))
  {
    assert Slots(Start.conditions) == [];
    AddAllBindings(Start, fs);
    AddAllNumbered(Start, fs);
  }

  /** The scalar filters `fs` in order, then the topics filter when `topics` is given. */
  function Build(fs: seq<ScalarFilter>, topics: Option<string>): (r: Builder)
    ensures Consistent(r)
    ensures |r.conditions| >= 1 && r.conditions[0] == PublicOnly
  {
    var b := AddFilters(fs);
    if Truthy(topics) then AddTopics(b, TopicList(topics.value)) else b
  }

  /** Built from the start, the placeholders are `$1 … $n` and bind what was asked for, in order. */
  lemma BuildBindings(fs: seq<ScalarFilter>, topics: Option<string>)
    ensures Bindings(Build(fs, topics)) == Asked(fs, topics)
    ensures Numbered(Build(fs, topics))
  {
    var b := AddFilters(fs);
    AddFiltersBindings(fs);
    if Truthy(topics) {
      var ts := TopicList(topics.value);
      AddTopicsBindings(b, ts);
      AddTopicsNumbered(b, ts);
    } else {
      assert Given(fs) + [] == Given(fs);
    }
  }

  /** The conditions and values of a search: the scalar filters, then the topics filter. */
  function BuildFilters(p: SearchParams): (r: Builder)
    ensures Consistent(r)
    ensures |r.conditions| >= 1 && r.conditions[0] == PublicOnly
  {
    Build(ScalarFilterList(p), p.topics)
  }

  /**
   * Placeholder `$k` of the built query is compared with exactly the column of
   * the k-th requested filter and is bound to exactly its value, and the
   * placeholders appear in the WHERE clause as `$1 … $n` in order: the counter
   * `idx` never drifts from the value list.
   */
  lemma BindingsMatchRequest(p: SearchParams)
    ensures Bindings(BuildFilters(p)) == Requested(p)
    ensures Numbered(BuildFilters(p))
    ensures BuildFilters(p).idx == |Requested(p)| + 1
  {
    BuildBindings(ScalarFilterList(p), p.topics);
  }

  /** The number of placeholders the topics filter adds: one per comma-separated piece. */
  lemma TopicsCountPieces(p: SearchParams)
    requires Truthy(p.topics)
    ensures |Requested(p)| == |Requested(p.(topics := None))| + |Split(p.topics.value, ',')|
  {
  }

  /** A non-blank `q` is the first filter: `$1` binds the trimmed text wrapped in `%…%`, matched against the name. */
  lemma NameFilterFirst(p: SearchParams)
    requires Filled(p.q)
    ensures |BuildFilters(p).values| >= 1
    ensures Bindings(BuildFilters(p))[0] == Binding(Name, Text("%" + Trim(p.q.value) + "%"))
    ensures BuildFilters(p).values[0] == Text("%" + Trim(p.q.value) + "%")
  {
    BindingsMatchRequest(p);
    var fs := ScalarFilterList(p);
    assert Given(fs) == [fs[0].binding] + Given(fs[1..]);
  }

  /** A blank `q`, `department` or `company` builds the same query as an absent one. */
  lemma BlankFiltersIgnored(p: SearchParams, blank: string)
    requires IsBlank(blank)
    ensures BuildFilters(p.(q := Some(blank))) == BuildFilters(p.(q := None))
    ensures BuildFilters(p.(department := Some(blank))) == BuildFilters(p.(department := None))
    ensures BuildFilters(p.(company := Some(blank))) == BuildFilters(p.(company := None))
  {
  }

  /** `available` only filters when it is exactly the text "true". */
  lemma AvailableOnlyWhenTrue(p: SearchParams)
    requires p.available != Some("true")
    ensures BuildFilters(p) == BuildFilters(p.(available := None))
  {
  }

  /** The fixed condition every search starts with. */
  const PublicTest := "ap.visibility = 'PUBLIC'"

  /** The SQL text of one condition. */
  function Render(c: Condition): string {
    match c
    case PublicOnly => PublicTest
    case Compare(col, k) => ColumnTest(col, k)
    case AnyTopic(ps) => "(" + Join(Map(TopicTest, ps), " OR ") + ")"
  }

  /** `$k`. */
  function Placeholder(k: nat): string {
    "$" + NatToString(k)
  }

  /** A placeholder reads back as its number, so distinct numbers give distinct placeholders. */
  lemma PlaceholderNumber(j: nat, k: nat)
    ensures Placeholder(k)[0] == '$' && ParseDecimal(Placeholder(k)[1..]) == k
    ensures Placeholder(j) == Placeholder(k) ==> j == k
  {
    ParseNatToString(j);
    ParseNatToString(k);
    assert Placeholder(j)[1..] == NatToString(j);
    assert Placeholder(k)[1..] == NatToString(k);
  }

  /** The test of one column against placeholder `$k`. */
  function ColumnTest(col: Column, k: nat): string {
    match col
    case Name => "u.name ILIKE " + Placeholder(k)
    case Department => "ap.department = " + Placeholder(k)
    case PassingYear => "ap.passing_year = " + Placeholder(k)
    case Company => "ap.company ILIKE " + Placeholder(k)
    case Available => "ap.available_for_mentorship = " + Placeholder(k)
    case Topic => Placeholder(k) + " = ANY(ap.mentorship_topics)"
  }

  /** `$k = ANY(ap.mentorship_topics)`. */
  function TopicTest(k: nat): string {
    ColumnTest(Topic, k)
  }

  /** `WHERE c1 AND c2 AND …`. */
  function WhereClause(b: Builder): string {
    "WHERE " + Join(Map(Render, b.conditions), " AND ")
  }

  /** The ANDed conditions after the first, each preceded by ` AND `; empty when there are none. */
  function Tail(cs: seq<Condition>): string
    requires |cs| >= 1
  {
    if |cs| == 1 then "" else " AND " + Join(Map(Render, cs[1..]), " AND ")
  }

  /** A join of two or more parts is the first part, the separator, and the join of the rest. */
  lemma JoinCons(parts: seq<string>, sep: string)
    requires |parts| >= 2
    ensures Join(parts, sep) == parts[0] + sep + Join(parts[1..], sep)
  {
  }

  /** A condition list led by the visibility test renders as that test, then the other conditions. */
  lemma WherePublicFirst(cs: seq<Condition>)
    requires |cs| >= 1 && cs[0] == PublicOnly
    ensures "WHERE " + Join(Map(Render, cs), " AND ") == "WHERE " + PublicTest + Tail(cs)
    ensures StartsWith("WHERE " + Join(Map(Render, cs), " AND "), "WHERE " + PublicTest)
  {
    var parts := Map(Render, cs);
    assert parts[0] == PublicTest;
    if |cs| > 1 {
      JoinCons(parts, " AND ");
      assert parts[1..] == Map(Render, cs[1..]);
      ConcatAssoc(PublicTest, " AND ", Join(parts[1..], " AND "));
    }
    ConcatAssoc("WHERE ", PublicTest, Tail(cs));
    PrefixStarts("WHERE " + PublicTest, Tail(cs));
  }

  /**
   * Every search query is restricted to PUBLIC profiles: the WHERE clause
   * starts with the visibility test, and every filter only adds a further
   * ANDed condition after it.
   */
  lemma WhereAlwaysPublic(p: SearchParams)
    ensures StartsWith(WhereClause(BuildFilters(p)), "WHERE " + PublicTest)
    ensures WhereClause(BuildFilters(p)) == "WHERE " + PublicTest + Tail(BuildFilters(p).conditions)
  {
    WherePublicFirst(BuildFilters(p).conditions);
  }

  /** The orderings the `sort` parameter can select. */
  datatype Order = NameAsc | NameDesc | YearDesc | YearAsc

  /** The `sort` switch: three recognised names, everything else (or nothing) sorts by name. */
  function OrderFor(sort: Option<string>): (r: Order)
    ensures r == NameDesc <==> sort == Some("name_desc")
    ensures r == YearDesc <==> sort == Some("year_desc")
    ensures r == YearAsc <==> sort == Some("year_asc")
    ensures r == NameAsc <==> sort !in {Some("name_desc"), Some("year_desc"), Some("year_asc")}
  {
    match sort
    case Some("name_desc") => NameDesc
    case Some("year_desc") => YearDesc
    case Some("year_asc") => YearAsc
    case _ => NameAsc
  }

  /** The ORDER BY text of an ordering. */
  function OrderText(o: Order): string {
    match o
    case NameAsc => "u.name ASC"
    case NameDesc => "u.name DESC"
    case YearDesc => "ap.passing_year DESC"
    case YearAsc => "ap.passing_year ASC"
  }

  /** Whatever the client sends, the ORDER BY text is one of four fixed strings. */
  lemma OrderWhitelisted(sort: Option<string>)
    ensures OrderText(OrderFor(sort)) in {"u.name ASC", "u.name DESC", "ap.passing_year DESC", "ap.passing_year ASC"}
    ensures OrderText(OrderFor(sort)) == "u.name ASC" <==>
      sort !in {Some("name_desc"), Some("year_desc"), Some("year_asc")}
  {
  }

  /** `(page - 1) * limit`, the number of rows skipped before a page. */
  function Offset(page: int, limit: int): (r: int)
    ensures page >= 1 && limit >= 0 ==> r >= 0
    ensures r + limit == page * limit
  {
    (page - 1) * limit
  }

  /** `Math.ceil(total / limit)`: the number of pages of `limit` rows `total` rows fill. */
  function TotalPages(total: nat, limit: int): (r: nat)
    requires limit >= 1
    ensures r * limit >= total
    ensures r > 0 ==> (r - 1) * limit < total
  {
    var r := (total + limit - 1) / limit;
    assert r * limit >= total && (r > 0 ==> (r - 1) * limit < total) by {
      DivBounds(total + limit - 1, limit);
      MulSucc(r - 1, limit);
      assert (r - 1) * limit == r * limit - limit;
    }
    r
  }

  /** Euclidean division brackets the dividend. */
  lemma DivBounds(n: nat, d: int)
    requires d >= 1
    ensures (n / d) * d <= n < (n / d) * d + d
  {
  }

  /**
   * The pages tile the result: row `i` (counting from 0) of `total` matching
   * rows is on exactly one page, page `i / limit + 1`, which is at most `totalPages`.
   */
  lemma PagesCoverResults(total: nat, limit: int, i: int)
    requires limit >= 1 && 0 <= i < total
    ensures var pg := i / limit + 1;
      && 1 <= pg <= TotalPages(total, limit)
      && Offset(pg, limit) <= i < Offset(pg, limit) + limit
    ensures forall pg :: Offset(pg, limit) <= i < Offset(pg, limit) + limit ==> pg == i / limit + 1
  {
    var k := i / limit;
    DivBounds(i, limit);
    assert Offset(k + 1, limit) == k * limit;
    var n := TotalPages(total, limit);
    if k + 1 > n {
      MulMonotone(n, k, limit);
      assert false;
    }
    forall q | Offset(q, limit) <= i < Offset(q, limit) + limit
      ensures q == k + 1
    {
      SameBlock(q - 1, k, limit, i);
    }
  }

  /** Blocks of `c` consecutive integers do not overlap: `i` lies in only one of them. */
  lemma SameBlock(a: int, b: int, c: int, i: int)
    requires c >= 1
    requires a * c <= i < a * c + c && b * c <= i < b * c + c
    ensures a == b
  {
    if a < b {
      MulMonotone(a + 1, b, c);
      MulSucc(a, c);
    } else if b < a {
      MulMonotone(b + 1, a, c);
      MulSucc(b, c);
    }
  }

  /** Multiplying by a positive number keeps order. */
  lemma MulMonotone(a: int, b: int, c: int)
    requires a <= b && c >= 1
    ensures a * c <= b * c
  {
  }

  /** One more block of `c` is `c` more. */
  lemma MulSucc(a: int, c: int)
    ensures (a + 1) * c == a * c + c
  {
  }

  /** What the handler sends to the database for one search. */
  datatype Plan = Plan(
    whereClause: string,
    countValues: seq<SqlValue>,
    orderBy: string,
    limitClause: string,
    dataValues: seq<SqlValue>)

  /**
   * The count query and the page query for the conditions and values of `b`:
   * the page query binds `limit` and the offset to the two placeholders after
   * the filter values.
   */
  function PlanFor(b: Builder, sort: Option<string>, page: int, limit: int): (r: Plan)
    requires Consistent(b) && |b.conditions| >= 1 && b.conditions[0] == PublicOnly
    ensures StartsWith(r.whereClause, "WHERE " + PublicTest)
    ensures r.orderBy in {"u.name ASC", "u.name DESC", "ap.passing_year DESC", "ap.passing_year ASC"}
    ensures r.countValues == b.values
    ensures r.dataValues == b.values + [Number(limit), Number((page - 1) * limit)]
    ensures r.limitClause == "LIMIT " + Placeholder(b.idx) + " OFFSET " + Placeholder(b.idx + 1)
    ensures r.dataValues[b.idx - 1] == Number(limit) && r.dataValues[b.idx] == Number((page - 1) * limit)
  {
    var data := b.values + [Number(limit), Number(Offset(page, limit))];
    WherePublicFirst(b.conditions);
    OrderWhitelisted(sort);
    Plan(WhereClause(b), b.values, OrderText(OrderFor(sort)),
         "LIMIT " + Placeholder(b.idx) + " OFFSET " + Placeholder(b.idx + 1), data)
  }

  /** The count query and the page query of a search. */
  function Search(p: SearchParams): Plan
  {
    PlanFor(BuildFilters(p), p.sort, p.page, p.limit)
  }
}
