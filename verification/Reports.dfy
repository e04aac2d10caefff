/**
 The report compiler: a definition becomes one aggregation query with bound arguments. `Column` is what the database
 computes from the query's expressions; `Direct` is what the definition means, read off the whole table.
 */
module Reports {
  import opened Prelude
  import opened Calendar

  // ---- the workspace tables ----

  datatype Deal = Deal(
    id: nat, amount: Option<real>, stage: Option<nat>, owner: Option<nat>, company: Option<nat>,
    createdAt: int, closedAt: Option<int>)

  datatype Stage = Stage(name: string, order: int)

  /** A row of the objects table: any kind of object, of any parent. */
  datatype Object = Object(objectType: string, parentType: string, parentId: nat, data: map<string, string>)

  /** Stage and company ids refer to existing rows, as their foreign keys demand; a dangling id joins nothing. */
  datatype Db = Db(deals: seq<Deal>, stages: map<nat, Stage>, companies: map<nat, string>, objects: seq<Object>)

  // ---- definitions ----

  datatype Metric = DealCount | AmountSum | WinRate

  datatype Dimension = NoDimension | ByStage | ByOwner | ByCompany | ByCustom(key: string)

  /** As it arrives: free text that validation has to place. */
  datatype Definition = Definition(metric: string, dimension: string, period: string, compareYoY: bool)

  function MetricOf(s: string): Option<Metric> {
    match s
    case "" => Some(DealCount)
    case "deal_count" => Some(DealCount)
    case "deal_amount_sum" => Some(AmountSum)
    case "win_rate" => Some(WinRate)
    case _ => None
  }

  function PeriodOf(s: string): Option<Period> {
    match s
    case "" => Some(AllTime)
    case "all" => Some(AllTime)
    case "month" => Some(Month)
    case "quarter" => Some(Quarter)
    case "year" => Some(Year)
    case _ => None
  }

  predicate KeyChar(c: char) {
    'a' <= c <= 'z' || 'A' <= c <= 'Z' || '0' <= c <= '9' || c == '_'
  }

  predicate ValidKey(key: string) {
    1 <= |key| <= 64 && forall c <- key :: KeyChar(c)
  }

  const CUSTOM := "custom:"

  function DimensionOf(s: string): Option<Dimension> {
    if CUSTOM <= s then (if ValidKey(s[|CUSTOM|..]) then Some(ByCustom(s[|CUSTOM|..])) else None)
    else
      match s
      case "" => Some(NoDimension)
      case "none" => Some(NoDimension)
      case "stage" => Some(ByStage)
      case "owner" => Some(ByOwner)
      case "company" => Some(ByCompany)
      case _ => None
  }

  /** The spellings of a metric, of a period and of a dimension. */
  ghost predicate SpellsMetric(s: string, m: Metric) {
    || s == (match m case DealCount => "deal_count" case AmountSum => "deal_amount_sum" case WinRate => "win_rate")
    || (s == "" && m == DealCount)
  }

  ghost predicate SpellsPeriod(s: string, p: Period) {
    || s == (match p case AllTime => "all" case Month => "month" case Quarter => "quarter" case Year => "year")
    || (s == "" && p == AllTime)
  }

  ghost predicate SpellsDimension(s: string, d: Dimension) {
    match d
    case NoDimension => s == "" || s == "none"
    case ByStage => s == "stage"
    case ByOwner => s == "owner"
    case ByCompany => s == "company"
    case ByCustom(key) => s == "custom:" + key && 0 < |key| < 65 && forall c <- key :: c == '_' || Alphanumeric(c)
  }

  ghost predicate Alphanumeric(c: char) {
    || 0 <= c as int - 'a' as int < 26
    || 0 <= c as int - 'A' as int < 26
    || 0 <= c as int - '0' as int < 10
  }

  /** A text is placed exactly where it is spelt, and nowhere else. */
  lemma SpelledIff(s: string)
    ensures forall m :: MetricOf(s) == Some(m) <==> SpellsMetric(s, m)
    ensures forall p :: PeriodOf(s) == Some(p) <==> SpellsPeriod(s, p)
    ensures forall d :: DimensionOf(s) == Some(d) <==> SpellsDimension(s, d)
  {
    MetricSpelled(s);
    PeriodSpelled(s);
    forall d ensures DimensionOf(s) == Some(d) <==> SpellsDimension(s, d) { DimensionSpelled(s, d); }
  }

  lemma MetricSpelled(s: string)
    ensures forall m :: MetricOf(s) == Some(m) <==> SpellsMetric(s, m)
  {
    assert |"deal_count"| == 10 && |"deal_amount_sum"| == 15 && |"win_rate"| == 8;
  }

  lemma PeriodSpelled(s: string)
    ensures forall p :: PeriodOf(s) == Some(p) <==> SpellsPeriod(s, p)
  {
    assert |"all"| == 3 && |"month"| == 5 && |"quarter"| == 7 && |"year"| == 4;
  }

  lemma DimensionSpelled(s: string, d: Dimension)
    ensures DimensionOf(s) == Some(d) <==> SpellsDimension(s, d)
  {
    assert |"none"| == 4 && |"stage"| == 5 && |"owner"| == 5 && |"company"| == 7 && |CUSTOM| == 7;
    assert "stage"[0] == 's' && "owner"[0] == 'o' && "company"[2] == 'm' && CUSTOM[2] == 's';
    if CUSTOM <= s { assert s == CUSTOM + s[|CUSTOM|..]; }
    if d.ByCustom? && s == "custom:" + d.key { assert CUSTOM <= s && s[|CUSTOM|..] == d.key; }
    assert forall c: char :: KeyChar(c) <==> c == '_' || Alphanumeric(c);
  }

  // ---- the query ----

  datatype Arg = TextArg(text: string) | TimeArg(time: int)

  /** `$n`: the n-th bound argument, counted from 1. */
  datatype Placeholder = Placeholder(n: nat)

  datatype Range = Range(from: Placeholder, to: Placeholder)

  datatype DimExpr = TotalExpr | StageExpr | OwnerExpr | CompanyExpr | CustomExpr(key: Placeholder)

  /** A condition of a FILTER clause. */
  datatype Condition = IsClosed | CreatedIn(range: Range)

  /** A scalar expression over the rows of a group. */
  datatype Expr =
    | Zero
    | CountRows(filter: seq<Condition>)
    | SumAmount(filter: seq<Condition>)
    | Divide(dividend: Expr, divisor: Expr)
    | NullIf(e: Expr, other: Expr)
    | Coalesce(e: Expr, other: Expr)

  datatype Query = Query(dim: DimExpr, current: Expr, prior: Option<Expr>, scan: Option<Range>)

  /** The aggregate of a metric, over all scanned rows or, with a FILTER, over those created in a range. */
  function MetricExpr(m: Metric, range: Option<Range>): Expr {
    match m
    case AmountSum => Coalesce(SumAmount(WindowFilter(range)), Zero)
    case WinRate =>
      Coalesce(Divide(CountRows([IsClosed] + WindowFilter(range)), NullIf(CountRows(WindowFilter(range)), Zero)), Zero)
    case DealCount => CountRows(WindowFilter(range))
  }

  function WindowFilter(range: Option<Range>): seq<Condition> {
    if range.Some? then [CreatedIn(range.value)] else []
  }

  predicate Bound(p: Placeholder, args: seq<Arg>) {
    1 <= p.n <= |args|
  }

  function TimeAt(r: Range, args: seq<Arg>): Option<Window> {
    if Bound(r.from, args) && Bound(r.to, args) && args[r.from.n - 1].TimeArg? && args[r.to.n - 1].TimeArg?
    then Some(Window(args[r.from.n - 1].time, args[r.to.n - 1].time))
    else None
  }

  /** The range an optional clause stands for; None when a placeholder has no argument of the right type. */
  function RangeOf(r: Option<Range>, args: seq<Arg>): Option<Option<Window>> {
    match r
    case None => Some(None)
    case Some(range) => (match TimeAt(range, args) case Some(w) => Some(Some(w)) case None => None)
  }

  function DimensionAt(e: DimExpr, args: seq<Arg>): Option<Dimension> {
    match e
    case TotalExpr => Some(NoDimension)
    case StageExpr => Some(ByStage)
    case OwnerExpr => Some(ByOwner)
    case CompanyExpr => Some(ByCompany)
    case CustomExpr(key) =>
      if Bound(key, args) && args[key.n - 1].TextArg? then Some(ByCustom(args[key.n - 1].text)) else None
  }

  /** What a query stands for: a dimension, a metric in one or two windows, and the range that bounds the scan. */
  datatype Resolved = Resolved(
    dim: Dimension, metric: Metric, current: Option<Window>, prior: Option<Option<Window>>, scan: Option<Window>)

  /** The query a valid definition asks for at instant `now`. */
  function Intended(m: Metric, d: Dimension, p: Period, compareYoY: bool, now: int): Resolved
    requires compareYoY ==> !p.AllTime?
  {
    if p.AllTime? then Resolved(d, m, None, None, None)
    else
      var (cur, prior) := PeriodWindows(p, now);
      if compareYoY then Resolved(d, m, Some(cur), Some(Some(prior)), Some(Window(prior.start, cur.end)))
      else Resolved(d, m, Some(cur), None, Some(cur))
  }

  // ---- what the database computes ----

  /** The value rows are grouped by. */
  datatype Group =
    | Total
    | StageGroup(stage: Option<Stage>)
    | OwnerGroup(owner: Option<nat>)
    | CompanyGroup(name: Option<string>)
    | CustomGroup(text: Option<string>)

  /** A row of the joined tables: a deal and the group its joined columns put it in. */
  datatype Joined = Joined(deal: Deal, group: Group)

  predicate IsBagOf(o: Object, d: Deal) {
    o.parentType == "deal" && o.parentId == d.id && o.objectType == "custom_properties"
  }

  function BagsOf(objects: seq<Object>, d: Deal): seq<Object> {
    if objects == [] then []
    else (if IsBagOf(objects[0], d) then [objects[0]] else []) + BagsOf(objects[1..], d)
  }

  /** The bags of a deal are the rows of custom properties that name it as their parent, with their multiplicity. */
  lemma {:induction false} BagsAre(objects: seq<Object>, d: Deal, o: Object)
    ensures multiset(BagsOf(objects, d))[o]
            == if o.parentType == "deal" && o.parentId == d.id && o.objectType == "custom_properties"
               then multiset(objects)[o] else 0
  {
    if objects != [] {
      BagsAre(objects[1..], d, o);
      assert objects == [objects[0]] + objects[1..];
    }
  }

  function TextOf(o: Object, key: string): Option<string> {
    if key in o.data then Some(o.data[key]) else None
  }

  function CustomRows(bags: seq<Object>, d: Deal, key: string): seq<Joined> {
    if bags == [] then [] else [Joined(d, CustomGroup(TextOf(bags[0], key)))] + CustomRows(bags[1..], d, key)
  }

  /** The rows one deal contributes: one per joined row, or one with NULLs when nothing joins. */
  function JoinOne(db: Db, dim: Dimension, d: Deal): seq<Joined> {
    match dim
    case NoDimension => [Joined(d, Total)]
    case ByStage =>
      [Joined(d, StageGroup(if d.stage.Some? && d.stage.value in db.stages then Some(db.stages[d.stage.value]) else None))]
    case ByOwner => [Joined(d, OwnerGroup(d.owner))]
    case ByCompany =>
      [Joined(d, CompanyGroup(if d.company.Some? && d.company.value in db.companies
                              then Some(db.companies[d.company.value]) else None))]
    case ByCustom(key) =>
      var bags := BagsOf(db.objects, d);
      if bags == [] then [Joined(d, CustomGroup(None))] else CustomRows(bags, d, key)
  }

  function Join(db: Db, dim: Dimension, deals: seq<Deal>): seq<Joined> {
    if deals == [] then [] else JoinOne(db, dim, deals[0]) + Join(db, dim, deals[1..])
  }

  predicate InRange(w: Option<Window>, d: Deal) {
    w.Some? ==> Within(w.value, d.createdAt)
  }

  function Scan(rows: seq<Joined>, w: Option<Window>): seq<Joined> {
    if rows == [] then [] else (if InRange(w, rows[0].deal) then [rows[0]] else []) + Scan(rows[1..], w)
  }

  function InGroup(rows: seq<Joined>, g: Group): seq<Deal> {
    if rows == [] then [] else (if rows[0].group == g then [rows[0].deal] else []) + InGroup(rows[1..], g)
  }

  function Created(deals: seq<Deal>, w: Option<Window>): seq<Deal> {
    if deals == [] then [] else (if InRange(w, deals[0]) then [deals[0]] else []) + Created(deals[1..], w)
  }

  function SumAmounts(deals: seq<Deal>): real {
    if deals == [] then 0.0
    else (match deals[0].amount case Some(a) => a case None => 0.0) + SumAmounts(deals[1..])
  }

  function CountClosed(deals: seq<Deal>): nat {
    if deals == [] then 0 else (if deals[0].closedAt.Some? then 1 else 0) + CountClosed(deals[1..])
  }

  /** A metric over a list of deals: their number, their amounts, or the share of them that is closed. */
  function Measure(m: Metric, deals: seq<Deal>): real {
    match m
    case DealCount => |deals| as real
    case AmountSum => SumAmounts(deals)
    case WinRate => if deals == [] then 0.0 else CountClosed(deals) as real / |deals| as real
  }

  // ---- evaluating expressions ----

  /** The value of an SQL expression: NULL, a number, or an error that fails the query. */
  datatype Value = Null | Num(n: real) | Fails

  function Passes(c: Condition, args: seq<Arg>, d: Deal): bool {
    match c
    case IsClosed => d.closedAt.Some?
    case CreatedIn(range) => TimeAt(range, args).Some? && Within(TimeAt(range, args).value, d.createdAt)
  }

  predicate PassesAll(filter: seq<Condition>, args: seq<Arg>, d: Deal) {
    filter == [] || (Passes(filter[0], args, d) && PassesAll(filter[1..], args, d))
  }

  function Filtered(deals: seq<Deal>, filter: seq<Condition>, args: seq<Arg>): seq<Deal> {
    if deals == [] then []
    else (if PassesAll(filter, args, deals[0]) then [deals[0]] else []) + Filtered(deals[1..], filter, args)
  }

  /** SUM skips NULLs and is NULL when nothing is left. */
  function SqlSum(deals: seq<Deal>): Value {
    if deals == [] then Null
    else
      match deals[0].amount
      case None => SqlSum(deals[1..])
      case Some(a) => if SqlSum(deals[1..]).Num? then Num(a + SqlSum(deals[1..]).n) else Num(a)
  }

  function Eval(e: Expr, args: seq<Arg>, deals: seq<Deal>): Value {
    match e
    case Zero => Num(0.0)
    case CountRows(filter) => Num(|Filtered(deals, filter, args)| as real)
    case SumAmount(filter) => SqlSum(Filtered(deals, filter, args))
    case Divide(dividend, divisor) =>
      var x, y := Eval(dividend, args, deals), Eval(divisor, args, deals);
      if x.Fails? || y.Fails? then Fails
      else if x.Null? || y.Null? then Null
      else if y.n == 0.0 then Fails
      else Num(x.n / y.n)
    case NullIf(e, other) =>
      var x, y := Eval(e, args, deals), Eval(other, args, deals);
      if x.Fails? || y.Fails? then Fails else if x == y then Null else x
    case Coalesce(e, other) =>
      var x := Eval(e, args, deals);
      if x.Null? then Eval(other, args, deals) else x
  }

  /** Over any rows, the expression is the metric of those created in the window. */
  ghost predicate Computes(e: Expr, args: seq<Arg>, m: Metric, w: Option<Window>) {
    forall deals: seq<Deal> :: Eval(e, args, deals) == Num(Measure(m, Created(deals, w)))
  }

  lemma {:induction false} FilteredIs(deals: seq<Deal>, range: Option<Range>, args: seq<Arg>, w: Option<Window>)
    requires RangeOf(range, args) == Some(w)
    ensures Filtered(deals, WindowFilter(range), args) == Created(deals, w)
    ensures |Filtered(deals, [IsClosed] + WindowFilter(range), args)| == CountClosed(Created(deals, w))
  {
    hide PassesAll, WindowFilter, InRange;
    if deals != [] {
      var d, rest := deals[0], deals[1..];
      FilteredIs(rest, range, args, w);
      FiltersOne(range, args, w, d);
      assert ([d] + Created(rest, w))[1..] == Created(rest, w) && [] + Created(rest, w) == Created(rest, w);
    }
  }

  lemma FiltersOne(range: Option<Range>, args: seq<Arg>, w: Option<Window>, d: Deal)
    requires RangeOf(range, args) == Some(w)
    ensures PassesAll(WindowFilter(range), args, d) <==> InRange(w, d)
    ensures PassesAll([IsClosed] + WindowFilter(range), args, d) <==> InRange(w, d) && d.closedAt.Some?
  {
    assert ([IsClosed] + WindowFilter(range))[1..] == WindowFilter(range);
    if range.Some? { assert WindowFilter(range)[1..] == []; }
  }

  lemma {:induction false} SqlSumIs(deals: seq<Deal>)
    ensures !SqlSum(deals).Fails?
    ensures (if SqlSum(deals).Null? then 0.0 else SqlSum(deals).n) == SumAmounts(deals)
  {
    if deals != [] { SqlSumIs(deals[1..]); }
  }

  lemma {:induction false} ClosedAreSome(deals: seq<Deal>)
    ensures CountClosed(deals) <= |deals|
  {
    if deals != [] { ClosedAreSome(deals[1..]); }
  }

  /** The share divides only when there is something to divide by. */
  lemma ShareIs(range: Option<Range>, args: seq<Arg>, w: Option<Window>, deals: seq<Deal>)
    requires RangeOf(range, args) == Some(w)
    ensures Eval(MetricExpr(WinRate, range), args, deals) == Num(Measure(WinRate, Created(deals, w)))
  {
    hide Filtered, Created, CountClosed, WindowFilter;
    FilteredIs(deals, range, args, w);
    ClosedAreSome(Created(deals, w));
    var all, closed := CountRows(WindowFilter(range)), CountRows([IsClosed] + WindowFilter(range));
    var n := |Created(deals, w)|;
    assert Eval(all, args, deals) == Num(n as real);
    assert Eval(NullIf(all, Zero), args, deals) == if n == 0 then Null else Num(n as real);
    assert Eval(closed, args, deals) == Num(CountClosed(Created(deals, w)) as real);
  }

  /** The compiled expression never divides by zero and equals the count, the sum or the share it is made for. */
  lemma MetricExprComputes(m: Metric, range: Option<Range>, args: seq<Arg>, w: Option<Window>)
    requires RangeOf(range, args) == Some(w)
    ensures Computes(MetricExpr(m, range), args, m, w)
  {
    hide Filtered, Created, CountClosed, SqlSum, SumAmounts, WindowFilter;
    forall deals: seq<Deal> ensures Eval(MetricExpr(m, range), args, deals) == Num(Measure(m, Created(deals, w))) {
      FilteredIs(deals, range, args, w);
      match m
      case WinRate => ShareIs(range, args, w, deals);
      case AmountSum => SqlSumIs(Created(deals, w));
      case DealCount =>
    }
  }

  /** The query stands for what is intended, with these arguments. */
  ghost predicate Compiles(q: Query, args: seq<Arg>, r: Resolved) {
    && DimensionAt(q.dim, args) == Some(r.dim)
    && RangeOf(q.scan, args) == Some(r.scan)
    && Computes(q.current, args, r.metric, r.current)
    && q.prior.Some? == r.prior.Some?
    && (q.prior.Some? ==> Computes(q.prior.value, args, r.metric, r.prior.value))
  }

  class ArgBuilder {
    var args: seq<Arg>

    constructor ()
      ensures args == []
    {
      args := [];
    }

    method Add(v: Arg) returns (p: Placeholder)
      modifies this
      ensures args == old(args) + [v] && p == Placeholder(|args|)
    {
      args := args + [v];
      return Placeholder(|args|);
    }
  }

  /**
   Fails exactly on an invalid definition; otherwise dimension and scan are the intended ones under the arguments made
   for them, and each column computes the metric over the rows created in its window.
   */
  method BuildRunQuery(def: Definition, now: int) returns (r: Option<(Query, seq<Arg>)>)
    ensures var m, d, p := MetricOf(def.metric), DimensionOf(def.dimension), PeriodOf(def.period);
            if m.Some? && d.Some? && p.Some? && (def.compareYoY ==> !p.value.AllTime?)
            then r.Some? && Compiles(r.value.0, r.value.1, Intended(m.value, d.value, p.value, def.compareYoY, now))
            else r.None?
  {
    hide MetricOf, PeriodOf, DimensionOf, PeriodWindows, MetricExpr, Computes;
    var metric, period, dimension := MetricOf(def.metric), PeriodOf(def.period), DimensionOf(def.dimension);
    if metric.None? || period.None? || dimension.None? { return None; }
    if def.compareYoY && period.value.AllTime? { return None; }

    var ab := new ArgBuilder();
    var dim;
    match dimension.value {
      case NoDimension => dim := TotalExpr;
      case ByStage => dim := StageExpr;
      case ByOwner => dim := OwnerExpr;
      case ByCompany => dim := CompanyExpr;
      case ByCustom(key) =>
        var ph := ab.Add(TextArg(key));
        dim := CustomExpr(ph);
    }

    var m := metric.value;
    if period.value.AllTime? {
      MetricExprComputes(m, None, ab.args, None);
      return Some((Query(dim, MetricExpr(m, None), None, None), ab.args));
    }
    var (cur, prior) := PeriodWindows(period.value, now);
    var cs := ab.Add(TimeArg(cur.start));
    var ce := ab.Add(TimeArg(cur.end));
    var curExpr := MetricExpr(m, Some(Range(cs, ce)));
    if !def.compareYoY {
      MetricExprComputes(m, Some(Range(cs, ce)), ab.args, Some(cur));
      return Some((Query(dim, curExpr, None, Some(Range(cs, ce))), ab.args));
    }
    var ps := ab.Add(TimeArg(prior.start));
    var pe := ab.Add(TimeArg(prior.end));
    MetricExprComputes(m, Some(Range(cs, ce)), ab.args, Some(cur));
    MetricExprComputes(m, Some(Range(ps, pe)), ab.args, Some(prior));
    return Some((Query(dim, curExpr, Some(MetricExpr(m, Some(Range(ps, pe)))), Some(Range(ps, ce))), ab.args));
  }

  /** The groups of the result: those of the scanned rows, or the single total row, which is there even for no rows. */
  function ResultGroups(q: Resolved, db: Db): set<Group> {
    if q.dim.NoDimension? then {Total}
    else set r | r in Scan(Join(db, q.dim, db.deals), q.scan) :: r.group
  }

  /** The rows of group `g` that the query scans. */
  function GroupRows(dim: Dimension, scan: Option<Window>, db: Db, g: Group): seq<Deal> {
    InGroup(Scan(Join(db, dim, db.deals), scan), g)
  }

  /** A column of the row of group `g`, as the database computes it; a placeholder without argument fails. */
  function Column(q: Query, e: Expr, args: seq<Arg>, db: Db, g: Group): Value {
    var dim, scan := DimensionAt(q.dim, args), RangeOf(q.scan, args);
    if dim.None? || scan.None? then Fails else Eval(e, args, GroupRows(dim.value, scan.value, db, g))
  }

  // ---- what the definition means ----

  /** The group a deal belongs to. */
  function GroupOf(db: Db, dim: Dimension, d: Deal): Group {
    match dim
    case NoDimension => Total
    case ByStage =>
      StageGroup(if d.stage.Some? && d.stage.value in db.stages then Some(db.stages[d.stage.value]) else None)
    case ByOwner => OwnerGroup(d.owner)
    case ByCompany =>
      CompanyGroup(if d.company.Some? && d.company.value in db.companies then Some(db.companies[d.company.value]) else None)
    case ByCustom(key) =>
      var bags := BagsOf(db.objects, d);
      CustomGroup(if bags == [] || key !in bags[0].data then None else Some(bags[0].data[key]))
  }

  /** The deals of the whole table that are in group `g` and created in the range. */
  function Members(db: Db, dim: Dimension, deals: seq<Deal>, g: Group, w: Option<Window>): seq<Deal> {
    if deals == [] then []
    else
      (if GroupOf(db, dim, deals[0]) == g && InRange(w, deals[0]) then [deals[0]] else []) +
      Members(db, dim, deals[1..], g, w)
  }

  function Direct(m: Metric, db: Db, dim: Dimension, g: Group, w: Option<Window>): real {
    Measure(m, Members(db, dim, db.deals, g, w))
  }

  /** The custom join does not multiply the deal: it has at most one bag of custom properties. */
  predicate JoinsOnce(db: Db, dim: Dimension, d: Deal) {
    dim.ByCustom? ==> |BagsOf(db.objects, d)| <= 1
  }

  /** No deal created in the window is multiplied. */
  predicate JoinOnceIn(db: Db, dim: Dimension, w: Option<Window>) {
    forall d <- Created(db.deals, w) :: JoinsOnce(db, dim, d)
  }

  // ---- the query means what the definition means ----

  lemma JoinOneIsGroupOf(db: Db, dim: Dimension, d: Deal)
    requires dim.ByCustom? ==> |BagsOf(db.objects, d)| <= 1
    ensures JoinOne(db, dim, d) == [Joined(d, GroupOf(db, dim, d))]
  {
    if dim.ByCustom? && BagsOf(db.objects, d) != [] {
      var bags := BagsOf(db.objects, d);
      assert bags[1..] == [];
      assert CustomRows(bags[1..], d, dim.key) == [];
    }
  }

  lemma Prepend(row: Joined, rows: seq<Joined>, scan: Option<Window>, g: Group)
    ensures Scan([row] + rows, scan) == (if InRange(scan, row.deal) then [row] else []) + Scan(rows, scan)
    ensures InGroup([row] + rows, g) == (if row.group == g then [row.deal] else []) + InGroup(rows, g)
  {
    assert ([row] + rows)[1..] == rows;
  }

  lemma PrependDeal(d: Deal, deals: seq<Deal>, w: Option<Window>)
    ensures Created([d] + deals, w) == (if InRange(w, d) then [d] else []) + Created(deals, w)
  {
    assert ([d] + deals)[1..] == deals;
  }

  // ---- the counts of the groups add up ----

  ghost function AnyOf(groups: set<Group>): (g: Group)
    requires groups != {}
    ensures g in groups
  {
    var g :| g in groups;
    g
  }

  /** The current counts of the listed groups, added up. */
  ghost function SumCounts(q: Resolved, db: Db, groups: set<Group>): nat {
    if groups == {} then 0
    else
      var g := AnyOf(groups);
      |Created(InGroup(Scan(Join(db, q.dim, db.deals), q.scan), g), q.current)| + SumCounts(q, db, groups - {g})
  }

  ghost function SumSizes(rows: seq<Joined>, groups: set<Group>): nat {
    if groups == {} then 0
    else
      var g := AnyOf(groups);
      |InGroup(rows, g)| + SumSizes(rows, groups - {g})
  }

  lemma {:induction false} SumSizesPrepend(r: Joined, rows: seq<Joined>, groups: set<Group>)
    ensures SumSizes([r] + rows, groups) == SumSizes(rows, groups) + if r.group in groups then 1 else 0
  {
    if groups != {} {
      var g := AnyOf(groups);
      Prepend(r, rows, None, g);
      SumSizesPrepend(r, rows, groups - {g});
    }
  }

  lemma {:induction false} SumSizesNone(groups: set<Group>)
    ensures SumSizes([], groups) == 0
  {
    if groups != {} {
      var g := AnyOf(groups);
      SumSizesNone(groups - {g});
    }
  }

  /** Groups partition rows. */
  lemma {:induction false} SumSizesAll(rows: seq<Joined>, groups: set<Group>)
    requires forall r <- rows :: r.group in groups
    ensures SumSizes(rows, groups) == |rows|
  {
    if rows == [] {
      SumSizesNone(groups);
    } else {
      SumSizesAll(rows[1..], groups);
      SumSizesPrepend(rows[0], rows[1..], groups);
      assert [rows[0]] + rows[1..] == rows;
    }
  }

  lemma {:induction false} FilterGroupCommute(rows: seq<Joined>, w: Option<Window>, g: Group)
    ensures Created(InGroup(rows, g), w) == InGroup(Scan(rows, w), g)
  {
    if rows != [] {
      var r, rest := rows[0], rows[1..];
      FilterGroupCommute(rest, w, g);
      PrependDeal(r.deal, InGroup(rest, g), w);
      Prepend(r, Scan(rest, w), w, g);
      assert [] + InGroup(rest, g) == InGroup(rest, g) && [] + Scan(rest, w) == Scan(rest, w);
    }
  }

  lemma {:induction false} SumCountsAreSizes(q: Resolved, db: Db, groups: set<Group>)
    ensures SumCounts(q, db, groups) == SumSizes(Scan(Scan(Join(db, q.dim, db.deals), q.scan), q.current), groups)
  {
    var rows := Scan(Join(db, q.dim, db.deals), q.scan);
    if groups != {} {
      var g := AnyOf(groups);
      FilterGroupCommute(rows, q.current, g);
      SumCountsAreSizes(q, db, groups - {g});
    }
  }

  lemma {:induction false} ScanTwice(rows: seq<Joined>, outer: Option<Window>, inner: Option<Window>)
    requires forall t: int :: (inner.Some? ==> Within(inner.value, t)) ==> (outer.Some? ==> Within(outer.value, t))
    ensures Scan(Scan(rows, outer), inner) == Scan(rows, inner)
    ensures forall r <- Scan(rows, inner) :: r in Scan(rows, outer)
  {
    if rows != [] {
      var r, rest := rows[0], rows[1..];
      ScanTwice(rest, outer, inner);
      Prepend(r, Scan(rest, outer), inner, Total);
      assert [] + Scan(rest, outer) == Scan(rest, outer);
    }
  }

  lemma {:induction false} ScanAppend(a: seq<Joined>, b: seq<Joined>, w: Option<Window>)
    ensures Scan(a + b, w) == Scan(a, w) + Scan(b, w)
  {
    if a == [] {
      assert a + b == b;
    } else {
      ScanAppend(a[1..], b, w);
      assert (a + b)[1..] == a[1..] + b;
    }
  }

  lemma {:induction false} CustomRowsSize(bags: seq<Object>, d: Deal, key: string, w: Option<Window>)
    ensures |CustomRows(bags, d, key)| == |bags|
    ensures |Scan(CustomRows(bags, d, key), w)| == if InRange(w, d) then |bags| else 0
  {
    if bags != [] {
      CustomRowsSize(bags[1..], d, key, w);
      Prepend(Joined(d, CustomGroup(TextOf(bags[0], key))), CustomRows(bags[1..], d, key), w, Total);
    }
  }

  lemma JoinOneSize(db: Db, dim: Dimension, d: Deal, w: Option<Window>)
    ensures |JoinOne(db, dim, d)| >= 1 && (|JoinOne(db, dim, d)| == 1 <==> JoinsOnce(db, dim, d))
    ensures |Scan(JoinOne(db, dim, d), w)| == if InRange(w, d) then |JoinOne(db, dim, d)| else 0
  {
    if dim.ByCustom? {
      CustomRowsSize(BagsOf(db.objects, d), d, dim.key, w);
    }
    var row := Joined(d, GroupOf(db, dim, d));
    Prepend(row, [], w, Total);
    Prepend(Joined(d, CustomGroup(None)), [], w, Total);
    assert [row] + [] == [row];
    assert [Joined(d, CustomGroup(None))] + [] == [Joined(d, CustomGroup(None))];
  }

  lemma {:induction false} JoinSize(db: Db, dim: Dimension, deals: seq<Deal>, w: Option<Window>)
    ensures |Scan(Join(db, dim, deals), w)| >= |Created(deals, w)|
    ensures |Scan(Join(db, dim, deals), w)| == |Created(deals, w)| <==>
            forall d <- Created(deals, w) :: JoinsOnce(db, dim, d)
  {
    if deals != [] {
      var d, rest := deals[0], deals[1..];
      JoinSize(db, dim, rest, w);
      JoinOneSize(db, dim, d, w);
      ScanAppend(JoinOne(db, dim, d), Join(db, dim, rest), w);
      assert forall x :: x in Created(deals, w) <==> (x == d && InRange(w, d)) || x in Created(rest, w);
    }
  }

  /**
   The current counts of all groups add up to the number of deals created in the window exactly when none of those
   deals is multiplied by the join: always, except for a custom dimension and a deal with several property bags.
   */
  lemma GroupCountsAddUpIff(m: Metric, d: Dimension, p: Period, compareYoY: bool, now: int, db: Db)
    requires compareYoY ==> !p.AllTime?
    ensures var q := Intended(m, d, p, compareYoY, now);
            SumCounts(q, db, ResultGroups(q, db)) == |Created(db.deals, q.current)| <==>
            forall x <- Created(db.deals, q.current) :: JoinsOnce(db, d, x)
  {
    hide PeriodWindows, StartOf, MonthOf, Join, Scan, Created, InGroup, JoinsOnce;
    var q := Intended(m, d, p, compareYoY, now);
    if !p.AllTime? { WindowsAreRight(p, now); }
    var rows, groups := Join(db, d, db.deals), ResultGroups(q, db);
    ScanTwice(rows, q.scan, q.current);
    SumCountsAreSizes(q, db, groups);
    forall r | r in Scan(rows, q.current) ensures r.group in groups {
      if d.NoDimension? { NoDimensionIsTotal(db, db.deals, q.scan, r); }
    }
    SumSizesAll(Scan(rows, q.current), groups);
    JoinSize(db, d, db.deals, q.current);
  }

  lemma {:induction false} NoDimensionIsTotal(db: Db, deals: seq<Deal>, w: Option<Window>, r: Joined)
    requires r in Scan(Join(db, NoDimension, deals), w)
    ensures r.group == Total
  {
    var row := Joined(deals[0], Total);
    Prepend(row, Join(db, NoDimension, deals[1..]), w, Total);
    assert JoinOne(db, NoDimension, deals[0]) == [row];
    if r != row { NoDimensionIsTotal(db, deals[1..], w, r); }
  }

  // ---- the columns mean what the definition means ----

  /** The joined rows, were no deal multiplied. */
  function DirectRows(db: Db, dim: Dimension, deals: seq<Deal>): seq<Joined> {
    if deals == [] then [] else [Joined(deals[0], GroupOf(db, dim, deals[0]))] + DirectRows(db, dim, deals[1..])
  }

  lemma {:induction false} DirectRowsAre(db: Db, dim: Dimension, deals: seq<Deal>, w: Option<Window>, g: Group)
    ensures Members(db, dim, deals, g, w) == InGroup(Scan(DirectRows(db, dim, deals), w), g)
    ensures |Scan(DirectRows(db, dim, deals), w)| == |Created(deals, w)|
  {
    if deals != [] {
      var d, rest := deals[0], deals[1..];
      DirectRowsAre(db, dim, rest, w, g);
      var row := Joined(d, GroupOf(db, dim, d));
      Prepend(row, DirectRows(db, dim, rest), w, g);
      Prepend(row, Scan(DirectRows(db, dim, rest), w), w, g);
      assert [] + Scan(DirectRows(db, dim, rest), w) == Scan(DirectRows(db, dim, rest), w);
    }
  }

  /** Within a window in which no deal is multiplied, joining gives one row per deal, in its group. */
  lemma {:induction false} JoinIsDirect(db: Db, dim: Dimension, deals: seq<Deal>, w: Option<Window>)
    requires forall d <- Created(deals, w) :: JoinsOnce(db, dim, d)
    ensures Scan(Join(db, dim, deals), w) == Scan(DirectRows(db, dim, deals), w)
  {
    hide JoinOne, JoinsOnce, GroupOf;
    if deals != [] {
      var d, rest := deals[0], deals[1..];
      assert forall x <- Created(rest, w) :: x in Created(deals, w);
      JoinIsDirect(db, dim, rest, w);
      ScanAppend(JoinOne(db, dim, d), Join(db, dim, rest), w);
      JoinOneSize(db, dim, d, w);
      Prepend(Joined(d, GroupOf(db, dim, d)), DirectRows(db, dim, rest), w, Total);
      if InRange(w, d) {
        assert d in Created(deals, w);
        JoinOnceIsGroupOf(db, dim, d, w);
      }
    }
  }

  lemma JoinOnceIsGroupOf(db: Db, dim: Dimension, d: Deal, w: Option<Window>)
    requires JoinsOnce(db, dim, d) && InRange(w, d)
    ensures Scan(JoinOne(db, dim, d), w) == [Joined(d, GroupOf(db, dim, d))]
  {
    JoinOneIsGroupOf(db, dim, d);
    Prepend(Joined(d, GroupOf(db, dim, d)), [], w, Total);
    assert [Joined(d, GroupOf(db, dim, d))] + [] == [Joined(d, GroupOf(db, dim, d))];
  }

  ghost predicate Inside(inner: Option<Window>, outer: Option<Window>) {
    forall t: int :: (inner.Some? ==> Within(inner.value, t)) ==> (outer.Some? ==> Within(outer.value, t))
  }

  /** Scanning less than the table loses nothing of a window inside the scan. */
  lemma ColumnRows(db: Db, dim: Dimension, scan: Option<Window>, w: Option<Window>, g: Group)
    requires Inside(w, scan)
    ensures Created(GroupRows(dim, scan, db, g), w) == InGroup(Scan(Join(db, dim, db.deals), w), g)
  {
    FilterGroupCommute(Scan(Join(db, dim, db.deals), scan), w, g);
    ScanTwice(Join(db, dim, db.deals), scan, w);
  }

  /** One column: the direct measure, for any metric, if no deal of its window is multiplied. */
  lemma ColumnIsDirect(q: Query, e: Expr, args: seq<Arg>, r: Resolved, w: Option<Window>, db: Db, g: Group)
    requires Compiles(q, args, r) && Computes(e, args, r.metric, w) && Inside(w, r.scan)
    requires JoinOnceIn(db, r.dim, w)
    ensures Column(q, e, args, db, g) == Num(Direct(r.metric, db, r.dim, g, w))
  {
    hide Measure, Join, Scan, InGroup, Created, Members, Eval;
    ColumnRows(db, r.dim, r.scan, w, g);
    JoinIsDirect(db, r.dim, db.deals, w);
    DirectRowsAre(db, r.dim, db.deals, w, g);
  }

  /** The windows of an intended query lie inside its scan. */
  lemma WindowsInside(m: Metric, d: Dimension, p: Period, compareYoY: bool, now: int)
    requires compareYoY ==> !p.AllTime?
    ensures var q := Intended(m, d, p, compareYoY, now);
            Inside(q.current, q.scan) && (q.prior.Some? ==> Inside(q.prior.value, q.scan))
  {
    hide PeriodWindows, StartOf, MonthOf, AddDate;
    if !p.AllTime? { WindowsAreRight(p, now); }
  }

  lemma {:induction false} JoinHasGroup(db: Db, dim: Dimension, deals: seq<Deal>, w: Option<Window>, x: Deal)
    requires x in deals && InRange(w, x)
    ensures exists r <- Scan(Join(db, dim, deals), w) :: r.group == GroupOf(db, dim, x)
  {
    hide GroupOf, BagsOf;
    var d, rest := deals[0], deals[1..];
    ScanAppend(JoinOne(db, dim, d), Join(db, dim, rest), w);
    if x == d {
      FirstRow(db, dim, d, w);
    } else {
      JoinHasGroup(db, dim, rest, w, x);
    }
  }

  /** A deal's first joined row is the one in its group. */
  lemma FirstRow(db: Db, dim: Dimension, d: Deal, w: Option<Window>)
    requires InRange(w, d)
    ensures Joined(d, GroupOf(db, dim, d)) in Scan(JoinOne(db, dim, d), w)
  {
    var rows := JoinOne(db, dim, d);
    assert rows == [Joined(d, GroupOf(db, dim, d))] + rows[1..];
    Prepend(Joined(d, GroupOf(db, dim, d)), rows[1..], w, Total);
  }

  lemma {:induction false} DirectHasDeal(db: Db, dim: Dimension, deals: seq<Deal>, w: Option<Window>, r: Joined)
    requires r in Scan(DirectRows(db, dim, deals), w)
    ensures r.deal in deals && InRange(w, r.deal) && r.group == GroupOf(db, dim, r.deal)
  {
    var d, rest := deals[0], deals[1..];
    Prepend(Joined(d, GroupOf(db, dim, d)), DirectRows(db, dim, rest), w, Total);
    if r in Scan(DirectRows(db, dim, rest), w) { DirectHasDeal(db, dim, rest, w, r); }
  }

  /**
   Compilation preserves meaning: for every valid definition, table and instant, each group's columns are the direct
   count, sum or share over the whole table if no deal of the column's window is multiplied by the join; every group
   with a deal in either window is in the result; and if no scanned deal is multiplied, no other group is.
   */
  lemma QueryMeansDefinition(query: Query, args: seq<Arg>, m: Metric, d: Dimension, p: Period, compareYoY: bool,
                             now: int, db: Db, g: Group)
    requires compareYoY ==> !p.AllTime?
    requires Compiles(query, args, Intended(m, d, p, compareYoY, now))
    ensures var q := Intended(m, d, p, compareYoY, now);
            && (JoinOnceIn(db, d, q.current) ==>
                  Column(query, query.current, args, db, g) == Num(Direct(m, db, d, g, q.current)))
            && (q.prior.Some? && JoinOnceIn(db, d, q.prior.value) ==>
                  Column(query, query.prior.value, args, db, g) == Num(Direct(m, db, d, g, q.prior.value)))
            && (forall x <- db.deals :: GroupOf(db, d, x) == g && InRange(q.scan, x) ==> g in ResultGroups(q, db))
            && (forall x <- db.deals ::
                  InRange(q.current, x) || (q.prior.Some? && InRange(q.prior.value, x)) ==> InRange(q.scan, x))
            && (!d.NoDimension? && JoinOnceIn(db, d, q.scan) && g in ResultGroups(q, db) ==>
                  exists x <- db.deals :: GroupOf(db, d, x) == g && InRange(q.scan, x))
  {
    hide PeriodWindows, StartOf, MonthOf, Column, Direct, Join, Scan, Created, Computes, GroupOf, Within;
    var q := Intended(m, d, p, compareYoY, now);
    WindowsInside(m, d, p, compareYoY, now);
    if JoinOnceIn(db, d, q.current) { ColumnIsDirect(query, query.current, args, q, q.current, db, g); }
    if q.prior.Some? && JoinOnceIn(db, d, q.prior.value) {
      ColumnIsDirect(query, query.prior.value, args, q, q.prior.value, db, g);
    }
    forall x | x in db.deals && GroupOf(db, d, x) == g && InRange(q.scan, x) ensures g in ResultGroups(q, db) {
      JoinHasGroup(db, d, db.deals, q.scan, x);
      if d.NoDimension? { TotalIsTheGroup(db, x); }
    }
    if !d.NoDimension? && JoinOnceIn(db, d, q.scan) && g in ResultGroups(q, db) {
      JoinIsDirect(db, d, db.deals, q.scan);
      var r :| r in Scan(Join(db, d, db.deals), q.scan) && r.group == g;
      DirectHasDeal(db, d, db.deals, q.scan, r);
    }
  }

  lemma TotalIsTheGroup(db: Db, x: Deal)
    ensures GroupOf(db, NoDimension, x) == Total
  {}

  lemma {:induction false} SumSizesEqual(a: seq<Joined>, b: seq<Joined>, groups: set<Group>)
    requires forall g :: |InGroup(a, g)| == |InGroup(b, g)|
    ensures SumSizes(a, groups) == SumSizes(b, groups)
  {
    if groups != {} { SumSizesEqual(a, b, groups - {AnyOf(groups)}); }
  }

  /** For counts the condition is exact: all groups have their direct counts if and only if no counted deal is multiplied. */
  lemma CountsAreDirectIff(query: Query, args: seq<Arg>, d: Dimension, p: Period, compareYoY: bool, now: int, db: Db)
    requires compareYoY ==> !p.AllTime?
    requires Compiles(query, args, Intended(DealCount, d, p, compareYoY, now))
    ensures var q := Intended(DealCount, d, p, compareYoY, now);
            (forall g :: Column(query, query.current, args, db, g) == Num(Direct(DealCount, db, d, g, q.current)))
            <==> JoinOnceIn(db, d, q.current)
  {
    hide PeriodWindows, StartOf, MonthOf, Join, Scan, Created, GroupOf, InGroup, Members, Eval, Inside, JoinsOnce;
    var q := Intended(DealCount, d, p, compareYoY, now);
    var w := q.current;
    WindowsInside(DealCount, d, p, compareYoY, now);
    var joined, direct := Scan(Join(db, d, db.deals), w), Scan(DirectRows(db, d, db.deals), w);
    if forall g :: Column(query, query.current, args, db, g) == Num(Direct(DealCount, db, d, g, w)) {
      forall g ensures |InGroup(joined, g)| == |InGroup(direct, g)| {
        ColumnRows(db, d, q.scan, w, g);
        DirectRowsAre(db, d, db.deals, w, g);
        assert Column(query, query.current, args, db, g) == Num(Direct(DealCount, db, d, g, w));
      }
      var groups := (set r | r in joined :: r.group) + (set r | r in direct :: r.group);
      SumSizesEqual(joined, direct, groups);
      SumSizesAll(joined, groups);
      SumSizesAll(direct, groups);
      DirectRowsAre(db, d, db.deals, w, Total);
      JoinSize(db, d, db.deals, w);
    }
    if JoinOnceIn(db, d, w) {
      forall g ensures Column(query, query.current, args, db, g) == Num(Direct(DealCount, db, d, g, w)) {
        ColumnIsDirect(query, query.current, args, q, w, db, g);
      }
    }
  }

  const BAG := Object("custom_properties", "deal", 7, map["k" := "v"])
  const DEAL := Deal(7, None, None, None, None, 0, None)
  const TWO_BAGS := Db([DEAL], map[], map[], [BAG, BAG])
  const BY_K := Query(CustomExpr(Placeholder(1)), MetricExpr(DealCount, None), None, None)
  const V := CustomGroup(Some("v"))

  lemma TwoRows()
    ensures BagsOf(TWO_BAGS.objects, DEAL) == [BAG, BAG]
    ensures Join(TWO_BAGS, ByCustom("k"), [DEAL]) == [Joined(DEAL, V), Joined(DEAL, V)]
  {
    assert [BAG, BAG][1..] == [BAG] && [BAG][1..] == [];
    assert BagsOf([], DEAL) == [] && BagsOf([BAG], DEAL) == [BAG];
    assert CustomRows([], DEAL, "k") == [] && CustomRows([BAG], DEAL, "k") == [Joined(DEAL, V)];
    assert [DEAL][1..] == [] && Join(TWO_BAGS, ByCustom("k"), []) == [];
  }

  lemma TwoOfOne(row: Joined)
    ensures InGroup(Scan([row, row], None), row.group) == [row.deal, row.deal]
    ensures Created([row.deal, row.deal], None) == [row.deal, row.deal]
  {
    assert [row, row][1..] == [row] && [row][1..] == [];
    assert Scan([], None) == [] && Scan([row], None) == [row];
    assert InGroup([], row.group) == [] && InGroup([row], row.group) == [row.deal];
    assert [row.deal, row.deal][1..] == [row.deal] && [row.deal][1..] == [];
    assert Created([], None) == [] && Created([row.deal], None) == [row.deal];
  }

  /** A deal with two property bags is counted twice. */
  lemma TwoBagsCountTwice()
    ensures Column(BY_K, BY_K.current, [TextArg("k")], TWO_BAGS, V) == Num(2.0)
    ensures Direct(DealCount, TWO_BAGS, ByCustom("k"), V, None) == 1.0
  {
    hide Join, Scan, InGroup, Created, Filtered, BagsOf;
    TwoRows();
    TwoOfOne(Joined(DEAL, V));
    FilteredIs([DEAL, DEAL], None, [TextArg("k")], None);
    OneMember();
  }

  lemma OneMember()
    ensures Members(TWO_BAGS, ByCustom("k"), [DEAL], V, None) == [DEAL]
  {
    hide BagsOf;
    TwoRows();
    assert [DEAL][1..] == [] && Members(TWO_BAGS, ByCustom("k"), [], V, None) == [];
  }
}
