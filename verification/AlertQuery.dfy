/** The alert listings: the WHERE clause and its positional arguments, built up filter by
    filter, and the cutting of a result into pages. */
module AlertQuery {
  import opened Domain

  datatype Arg = Text(s: string) | Time(t: int) | Number(n: int)

  /** A row of vehicle_alerts, as far as the clauses read it. */
  datatype Alert = Alert(
    fleet: string, created: int, kind: string, severity: string, acknowledged: bool, resolved: bool)

  /** One conjunct; `pos` is the 1-based number of its placeholder. */
  datatype Cond =
    | FleetIs(pos: nat) | CreatedFrom(pos: nat) | CreatedTo(pos: nat) | KindIs(pos: nat) | SeverityIs(pos: nat)
    | Acknowledged | NotAcknowledged | NotResolved

  /** What a request supplies; absent, empty and unparsable values are None. */
  datatype Filter = Filter(from: Option<int>, to: Option<int>, kind: Option<string>, severity: Option<string>,
                           acknowledged: Option<bool>)

  predicate ArgIs(args: seq<Arg>, pos: nat, a: Arg) {
    1 <= pos <= |args| && args[pos - 1] == a
  }

  predicate Holds(c: Cond, args: seq<Arg>, r: Alert) {
    match c
    case FleetIs(p) => ArgIs(args, p, Text(r.fleet))
    case CreatedFrom(p) => 1 <= p <= |args| && args[p - 1].Time? && r.created >= args[p - 1].t
    case CreatedTo(p) => 1 <= p <= |args| && args[p - 1].Time? && r.created <= args[p - 1].t
    case KindIs(p) => ArgIs(args, p, Text(r.kind))
    case SeverityIs(p) => ArgIs(args, p, Text(r.severity))
    case Acknowledged => r.acknowledged
    case NotAcknowledged => !r.acknowledged
    case NotResolved => !r.resolved
  }

  predicate Selects(where: seq<Cond>, args: seq<Arg>, r: Alert) {
    forall i :: 0 <= i < |where| ==> Holds(where[i], args, r)
  }

  /** Every placeholder of the clause is bound by the arguments. */
  predicate Bound(where: seq<Cond>, n: nat) {
    forall i :: 0 <= i < |where| ==> Pos(where[i]) <= n
  }

  function Pos(c: Cond): nat {
    match c
    case FleetIs(p) => p
    case CreatedFrom(p) => p
    case CreatedTo(p) => p
    case KindIs(p) => p
    case SeverityIs(p) => p
    case _ => 0
  }

  /** Appending an argument and a conjunct on it narrows the selection by that conjunct alone. */
  lemma Narrow(where: seq<Cond>, args: seq<Arg>, c: Cond, more: seq<Arg>, r: Alert)
    requires Bound(where, |args|)
    ensures Selects(where + [c], args + more, r) <==> Selects(where, args, r) && Holds(c, args + more, r)
  {
    var w, a := where + [c], args + more;
    forall i | 0 <= i < |where| ensures Holds(w[i], a, r) == Holds(where[i], args, r) {
      assert w[i] == where[i];
      assert Pos(where[i]) <= |args|;
    }
    assert w[|where|] == c;
    if Selects(w, a, r) {
      forall i | 0 <= i < |where| ensures Holds(where[i], args, r) { assert Holds(w[i], a, r); }
    }
  }

  /** ... and appending arguments that no conjunct names changes nothing. */
  lemma Widen(where: seq<Cond>, args: seq<Arg>, more: seq<Arg>, r: Alert)
    requires Bound(where, |args|)
    ensures Selects(where, args + more, r) <==> Selects(where, args, r)
  {
    forall i | 0 <= i < |where| ensures Holds(where[i], args + more, r) == Holds(where[i], args, r) {
      assert Pos(where[i]) <= |args|;
    }
  }

  /** The builder's state: a clause and its arguments, grown together. */
  class Builder {
    var where: seq<Cond>
    var args: seq<Arg>

    ghost predicate Valid()
      reads this
    {
      Bound(where, |args|)
    }

    constructor (fleet: string)
      ensures Valid() && |args| == 1
      ensures forall r :: Selects(where, args, r) <==> r.fleet == fleet
    {
      where, args := [FleetIs(1)], [Text(fleet)];
      new;
      assert forall r :: Selects(where, args, r) <==> Holds(where[0], args, r);
    }

    /** `args = append(args, v)` and a conjunct on the placeholder numbered len(args). */
    method AddBound(c: Cond, a: Arg)
      requires Valid() && Pos(c) == |args| + 1
      modifies this
      ensures Valid() && args == old(args) + [a]
      ensures forall r :: Selects(where, args, r) <==> old(Selects(where, args, r)) && Holds(c, args, r)
    {
      ghost var w, b := where, args;
      args := args + [a];
      where := where + [c];
      forall r ensures Selects(where, args, r) <==> Selects(w, b, r) && Holds(c, args, r) {
        Narrow(w, b, c, [a], r);
      }
    }

    /** A conjunct without a placeholder. */
    method AddPlain(c: Cond)
      requires Valid() && Pos(c) == 0
      modifies this
      ensures Valid() && args == old(args)
      ensures forall r :: Selects(where, args, r) <==> old(Selects(where, args, r)) && Holds(c, args, r)
    {
      ghost var w := where;
      where := where + [c];
      assert args + [] == args;
      forall r ensures Selects(where, args, r) <==> Selects(w, args, r) && Holds(c, args, r) {
        Narrow(w, args, c, [], r);
      }
    }
  }

  /** LIMIT and OFFSET go last and are addressed by the last two positions. */
  method Finish(b: Builder, page: int, limit: int) returns (args: seq<Arg>, limitPos: nat, offsetPos: nat)
    requires b.Valid()
    ensures forall r :: Selects(b.where, args, r) <==> Selects(b.where, b.args, r)
    ensures offsetPos == |args| && limitPos == |args| - 1
    ensures ArgIs(args, limitPos, Number(limit)) && ArgIs(args, offsetPos, Number(Offset(page, limit)))
  {
    args := b.args + [Number(limit), Number(Offset(page, limit))];
    limitPos, offsetPos := |args| - 1, |args|;
    forall r ensures Selects(b.where, args, r) <==> Selects(b.where, b.args, r) {
      Widen(b.where, b.args, [Number(limit), Number(Offset(page, limit))], r);
    }
  }

  /** The time range of `HandleFleetAlertHistory`. */
  method AddTimeRange(b: Builder, f: Filter)
    requires b.Valid()
    modifies b
    ensures b.Valid()
    ensures forall r :: Selects(b.where, b.args, r) <==>
              && old(Selects(b.where, b.args, r))
              && (f.from.Some? ==> r.created >= f.from.value) && (f.to.Some? ==> r.created <= f.to.value)
  {
    if f.from.Some? {
      b.AddBound(CreatedFrom(|b.args| + 1), Time(f.from.value));
    }
    if f.to.Some? {
      b.AddBound(CreatedTo(|b.args| + 1), Time(f.to.value));
    }
  }

  /** Its type and severity. */
  method AddLabels(b: Builder, f: Filter)
    requires b.Valid()
    modifies b
    ensures b.Valid()
    ensures forall r :: Selects(b.where, b.args, r) <==>
              && old(Selects(b.where, b.args, r))
              && (f.kind.Some? ==> r.kind == f.kind.value) && (f.severity.Some? ==> r.severity == f.severity.value)
  {
    if f.kind.Some? {
      b.AddBound(KindIs(|b.args| + 1), Text(f.kind.value));
    }
    if f.severity.Some? {
      b.AddBound(SeverityIs(|b.args| + 1), Text(f.severity.value));
    }
  }

  /** `HandleFleetAlertHistory`: for every combination of filters the clause, read over its
      positional arguments, selects exactly the rows asked for. */
  method FleetHistory(fleet: string, f: Filter, page: int, limit: int)
    returns (where: seq<Cond>, args: seq<Arg>, limitPos: nat, offsetPos: nat)
    ensures forall r :: Selects(where, args, r) <==>
              && r.fleet == fleet
              && (f.from.Some? ==> r.created >= f.from.value) && (f.to.Some? ==> r.created <= f.to.value)
              && (f.kind.Some? ==> r.kind == f.kind.value) && (f.severity.Some? ==> r.severity == f.severity.value)
              && (f.acknowledged.Some? ==> r.acknowledged == f.acknowledged.value)
    ensures offsetPos == |args| && limitPos == |args| - 1
    ensures ArgIs(args, limitPos, Number(limit)) && ArgIs(args, offsetPos, Number(Offset(page, limit)))
  {
    var b := new Builder(fleet);
    AddTimeRange(b, f);
    AddLabels(b, f);
    if f.acknowledged == Some(true) {
      b.AddPlain(Acknowledged);
    } else if f.acknowledged == Some(false) {
      b.AddPlain(NotAcknowledged);
    }
    args, limitPos, offsetPos := Finish(b, page, limit);
    where := b.where;
  }

  /** `HandleAttentionQueue`. */
  method AttentionQueue(fleet: string, severity: Option<string>, kind: Option<string>, page: int, limit: int)
    returns (where: seq<Cond>, args: seq<Arg>, limitPos: nat, offsetPos: nat)
    ensures forall r :: Selects(where, args, r) <==>
              && r.fleet == fleet && !r.acknowledged && !r.resolved
              && (severity.Some? ==> r.severity == severity.value) && (kind.Some? ==> r.kind == kind.value)
    ensures offsetPos == |args| && limitPos == |args| - 1
    ensures ArgIs(args, limitPos, Number(limit)) && ArgIs(args, offsetPos, Number(Offset(page, limit)))
  {
    var b := new Builder(fleet);
    b.AddPlain(NotAcknowledged);
    b.AddPlain(NotResolved);
    if severity.Some? {
      b.AddBound(SeverityIs(|b.args| + 1), Text(severity.value));
    }
    if kind.Some? {
      b.AddBound(KindIs(|b.args| + 1), Text(kind.value));
    }
    args, limitPos, offsetPos := Finish(b, page, limit);
    where := b.where;
  }

  // ---------------------------------------------------------------------- pagination

  const TWO63: int := 0x8000_0000_0000_0000

  /** 64-bit two's-complement wrap-around. */
  function Wrap64(n: int): (m: int)
    ensures -TWO63 <= m < TWO63 && (n - m) % 0x1_0000_0000_0000_0000 == 0
  {
    (n + TWO63) % (2 * TWO63) - TWO63
  }

  /** offset := (page - 1) * limit, in machine integers. */
  function Offset(page: int, limit: int): int {
    Wrap64((page - 1) * limit)
  }

  /** `parsePagination` on what Atoi made of the two parameters. A limit above 100 is not capped
      but falls back to the default, unlike its comment says. */
  function ParsePagination(page: Option<int>, limit: Option<int>): (r: (int, int))
    ensures r.0 >= 1 && 1 <= r.1 <= 100
    ensures r.0 == 1 || Some(r.0) == page
    ensures r.1 == 50 || Some(r.1) == limit
    ensures page.Some? && page.value >= 1 ==> r.0 == page.value
    ensures page.None? || page.value <= 0 ==> r.0 == 1
    ensures limit.Some? && 1 <= limit.value <= 100 ==> r.1 == limit.value
    ensures limit.None? || limit.value <= 0 || limit.value > 100 ==> r.1 == 50
  {
    (if page.Some? && page.value > 0 then page.value else 1,
     if limit.Some? && 0 < limit.value <= 100 then limit.value else 50)
  }

  /** The number of pages shown in the response. */
  function Pages(limit: int, total: nat): nat {
    if limit > 0 then (total + limit - 1) / limit else 0
  }

  function Min(a: int, b: int): int {
    if a < b then a else b
  }

  /** LIMIT/OFFSET over an ordered result; the database refuses a negative offset. */
  function PageAt<T>(rows: seq<T>, offset: int, limit: nat): seq<T> {
    if offset < 0 then [] else rows[Min(offset, |rows|)..Min(offset + limit, |rows|)]
  }

  function PageOf<T>(rows: seq<T>, page: int, limit: nat): seq<T> {
    PageAt(rows, Offset(page, limit), limit)
  }

  function FirstPages<T>(rows: seq<T>, limit: nat, n: nat): seq<T> {
    if n == 0 then [] else FirstPages(rows, limit, n - 1) + PageOf(rows, n, limit)
  }

  /** The offset is the intended one exactly as long as it fits in 63 bits. */
  lemma OffsetExact(page: int, limit: int)
    requires page >= 1 && limit >= 1
    ensures Offset(page, limit) == (page - 1) * limit <==> (page - 1) * limit < TWO63
  {
    assert (page - 1) * limit >= 0;
    if (page - 1) * limit < TWO63 { SmallUnwrapped((page - 1) * limit); }
  }

  lemma SmallUnwrapped(n: int)
    requires 0 <= n < TWO63
    ensures Wrap64(n) == n
  {
  }

  /** Beyond that, pages repeat: this one shows the first page again. */
  lemma HugePageRepeats<T>(rows: seq<T>)
    ensures PageOf(rows, 0x4000_0000_0000_0001, 4) == PageOf(rows, 1, 4)
  {
    assert (0x4000_0000_0000_0001 - 1) * 4 == 2 * TWO63;
    assert Offset(0x4000_0000_0000_0001, 4) == 0 == Offset(1, 4);
  }

  /** In between, for the first wrap-around, the offset is negative and nothing is shown. */
  lemma WrappedPageIsEmpty<T>(rows: seq<T>, page: int, limit: nat)
    requires TWO63 <= (page - 1) * limit < 2 * TWO63
    ensures PageOf(rows, page, limit) == []
  {
    WrappedNegative((page - 1) * limit);
  }

  lemma WrappedNegative(n: int)
    requires TWO63 <= n < 2 * TWO63
    ensures Wrap64(n) < 0
  {
  }

  lemma PageExtends<T>(rows: seq<T>, offset: nat, limit: nat)
    ensures rows[..Min(offset, |rows|)] + PageAt(rows, offset, limit) == rows[..Min(offset + limit, |rows|)]
  {
  }

  lemma PageStarts<T>(rows: seq<T>, n: nat, limit: nat, offset: nat)
    requires n >= 1 && offset == (n - 1) * limit < TWO63
    ensures PageOf(rows, n, limit) == PageAt(rows, offset, limit)
  {
    SmallUnwrapped(offset);
  }

  lemma Multiples(n: nat, limit: nat)
    requires n >= 1
    ensures 0 <= (n - 1) * limit && n * limit == (n - 1) * limit + limit
  {
  }

  lemma {:induction false} FirstPagesPrefix<T>(rows: seq<T>, limit: nat, n: nat)
    requires n * limit < TWO63
    ensures FirstPages(rows, limit, n) == rows[..Min(n * limit, |rows|)]
  {
    if n > 0 {
      Multiples(n, limit);
      var offset: nat := (n - 1) * limit;
      FirstPagesPrefix(rows, limit, n - 1);
      PageStarts(rows, n, limit, offset);
      PageExtends(rows, offset, limit);
    }
  }

  lemma PagesBracket(limit: int, total: nat)
    requires limit >= 1
    ensures total <= Pages(limit, total) * limit < total + limit
  {
    var q := Pages(limit, total);
    assert q * limit + (total + limit - 1) % limit == total + limit - 1;
  }

  /** A page beyond the last shows nothing. */
  lemma BeyondLastPage<T>(rows: seq<T>, page: int, limit: nat)
    requires limit >= 1 && page > Pages(limit, |rows|) && (page - 1) * limit < TWO63
    ensures PageOf(rows, page, limit) == []
  {
    PagesBracket(limit, |rows|);
    Monotone(Pages(limit, |rows|), page - 1, limit);
    PageStarts(rows, page, limit, (page - 1) * limit);
  }

  lemma Monotone(a: int, b: int, limit: nat)
    requires a <= b
    ensures a * limit <= b * limit
  {
  }

  /** Pages 1 to Pages of a fixed ordered result, put together, are the result: every selected
      row once and in order. */
  lemma PagesPartition<T>(rows: seq<T>, limit: nat)
    requires 1 <= limit <= 100 && |rows| + limit <= TWO63
    ensures FirstPages(rows, limit, Pages(limit, |rows|)) == rows
  {
    PagesBracket(limit, |rows|);
    FirstPagesPrefix(rows, limit, Pages(limit, |rows|));
  }
}
