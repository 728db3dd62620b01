/**
 Capturing all traffic with two half-default routes (win/src/routing.rs), over an abstract IPv4
 route table. A row is created or refused by the system; a row that exists cannot be created again.
 */
module Routing {
  import opened Bytes

  type Address = U32

  /** A table row is identified by its destination prefix, interface and gateway. */
  datatype Route = Route(dest: Address, len: nat, luid: nat, gateway: Address)

  /** The rows of the table, each with its metric. */
  type Rows = map<Route, nat>

  /** How many addresses share the first `len` bits. */
  function BlockSize(len: nat): (n: nat)
    requires len <= 32
    ensures n > 0
  {
    Pow2(32 - len)
  }

  function Pow2(n: nat): (p: nat)
    ensures p > 0
  {
    if n == 0 then 1 else 2 * Pow2(n - 1)
  }

  /** Does the destination prefix of `r` cover `a`? */
  predicate Matches(r: Route, a: Address) {
    r.len <= 32 && r.dest / BlockSize(r.len) == a / BlockSize(r.len)
  }

  /** A row's metric counts on top of its interface's own. */
  function Cost(rows: Rows, ifMetric: nat -> nat, r: Route): nat
    requires r in rows
  {
    rows[r] + ifMetric(r.luid)
  }

  /** Longest prefix first, lowest cost second: is `r` a route the system may pick for `a`? */
  ghost predicate Best(rows: Rows, ifMetric: nat -> nat, a: Address, r: Route) {
    && r in rows && Matches(r, a)
    && forall q :: q in rows && Matches(q, a) ==>
         q.len < r.len || (q.len == r.len && Cost(rows, ifMetric, r) <= Cost(rows, ifMetric, q))
  }

  const CAPTURE_METRIC: nat := 5
  const CARVE_OUT_METRIC: nat := 1

  function LowHalf(tun: nat): Route {
    Route(0, 1, tun, 0)
  }

  function HighHalf(tun: nat): Route {
    Route(0x8000_0000, 1, tun, 0)
  }

  /** The capture route for `a`. */
  function Half(tun: nat, a: Address): Route {
    if a < 0x8000_0000 then LowHalf(tun) else HighHalf(tun)
  }

  function CarveOut(ip: Address, hop: Route): Route {
    Route(ip, 32, hop.luid, hop.gateway)
  }

  /** The system's table. */
  class RouteTable {
    var rows: Rows

    constructor (rows: Rows)
      ensures this.rows == rows
    {
      this.rows := rows;
    }

    /** `CreateIpForwardEntry2`: refused for an existing row, or whenever the system refuses. */
    method Create(r: Route, metric: nat, permitted: bool) returns (ok: bool)
      modifies this
      ensures ok <==> permitted && r !in old(rows)
      ensures rows == if ok then old(rows)[r := metric] else old(rows)
    {
      ok := permitted && r !in rows;
      if ok {
        rows := rows[r := metric];
      }
    }

    /** `DeleteIpForwardEntry2`: fails only for a row that is not there. */
    method Delete(r: Route) returns (ok: bool)
      modifies this
      ensures ok <==> r in old(rows)
      ensures rows == old(rows) - {r}
    {
      ok := r in rows;
      rows := rows - {r};
    }

    /** The adapter is closed: the system drops every row on it. */
    method CloseAdapter(luid: nat)
      modifies this
      ensures rows == OffAdapter(old(rows), luid)
    {
      rows := OffAdapter(rows, luid);
    }
  }

  /** The rows that are not on the adapter. */
  function OffAdapter(rows: Rows, luid: nat): Rows {
    map r | r in rows && r.luid != luid :: rows[r]
  }

  /** The rows we created, in order. */
  class Routes {
    const rows: seq<Route>

    constructor (rows: seq<Route>)
      ensures this.rows == rows
    {
      this.rows := rows;
    }

    method Remove(table: RouteTable)
      modifies table
      ensures table.rows == old(table.rows) - (set r | r in rows)
    {
      for i := 0 to |rows|
        invariant table.rows == old(table.rows) - (set r | r in rows[..i])
      {
        var _ := table.Delete(rows[i]);
      }
      assert rows[..|rows|] == rows;
    }
  }

  /** The system's answer to each create `install` may ask for. */
  datatype Permits = Permits(carveOut: bool, low: bool, high: bool)

  /** The carve-out `install` adds, if it adds one: a hop was found, and the row is new and permitted. */
  function AddedCarveOut(rows: Rows, phone: Option<Address>, hop: Option<Route>, permitted: bool): Option<Route> {
    if phone.Some? && hop.Some? && permitted && CarveOut(phone.value, hop.value) !in rows
    then Some(CarveOut(phone.value, hop.value))
    else None
  }

  /** The table with the capture routes and the carve-out, if any, in place. */
  function Captured(rows: Rows, tun: nat, carveOut: Option<Route>): Rows {
    var carved := if carveOut.Some? then rows[carveOut.value := CARVE_OUT_METRIC] else rows;
    carved[LowHalf(tun) := CAPTURE_METRIC][HighHalf(tun) := CAPTURE_METRIC]
  }

  /**
   The rows a successful install adds: a host route to the phone through the gateway and interface
   reported for it, if it is new and permitted, and the two halves of everything, on the tunnel.
   */
  function Added(rows: Rows, tun: nat, phone: Option<Address>, hop: Option<Route>, permitted: bool): seq<Route> {
    (if phone.Some? && hop.Some? && permitted && Route(phone.value, 32, hop.value.luid, hop.value.gateway) !in rows
     then [Route(phone.value, 32, hop.value.luid, hop.value.gateway)] else [])
    + [Route(0, 1, tun, 0), Route(0x8000_0000, 1, tun, 0)]
  }

  /** The table after a successful install: its rows and these, a host route with metric 1 and the halves with 5. */
  lemma CapturedRows(rows: Rows, tun: nat, phone: Option<Address>, hop: Option<Route>, permitted: bool)
    requires Route(0, 1, tun, 0) !in rows && Route(0x8000_0000, 1, tun, 0) !in rows
    ensures var after, added := Captured(rows, tun, AddedCarveOut(rows, phone, hop, permitted)),
                                Added(rows, tun, phone, hop, permitted);
      && after.Keys == rows.Keys + (set q | q in added)
      && (forall q :: q in rows ==> after[q] == rows[q])
      && (forall q :: q in added ==> after[q] == if q.len == 32 then 1 else 5)
  {
    var halves := [Route(0, 1, tun, 0), Route(0x8000_0000, 1, tun, 0)];
    var added := Added(rows, tun, phone, hop, permitted);
    assert halves[0] in added && halves[1] in added;
    if AddedCarveOut(rows, phone, hop, permitted).Some? {
      assert added[0] == Route(phone.value, 32, hop.value.luid, hop.value.gateway);
    }
  }

  /** What the system reports for the phone, if anything, is a route it may pick. */
  ghost predicate ReportsBest(rows: Rows, ifMetric: nat -> nat, phone: Option<Address>, hop: Option<Route>) {
    phone.Some? && hop.Some? ==> Best(rows, ifMetric, phone.value, hop.value)
  }

  /** A table into which `install` has put its routes: what the theorems on capture start from. */
  ghost predicate Installed(rows: Rows, ifMetric: nat -> nat, tun: nat, phone: Option<Address>, hop: Option<Route>,
                            carveOut: Option<Route>)
  {
    && LowHalf(tun) !in rows && HighHalf(tun) !in rows
    && ReportsBest(rows, ifMetric, phone, hop)
    && (carveOut.Some? ==>
          && phone.Some? && hop.Some?
          && carveOut.value == CarveOut(phone.value, hop.value) && carveOut.value !in rows)
  }

  /**
   `Routes::install`, with `hop` the route the system reports for the phone (or no answer). It
   succeeds exactly when both capture routes are new and permitted; the carve-out is best effort.
   On failure the table is as it was; on success it has gained exactly the returned rows.
   */
  method Install(table: RouteTable, tun: nat, phone: Option<Address>, hop: Option<Route>, permits: Permits)
    returns (r: Result<Routes, ()>)
    modifies table
    ensures r.Ok? <==>
            && permits.low && Route(0, 1, tun, 0) !in old(table.rows)
            && permits.high && Route(0x8000_0000, 1, tun, 0) !in old(table.rows)
    ensures r.Err? ==> table.rows == old(table.rows)
    ensures r.Ok? ==>
              && r.value.rows == Added(old(table.rows), tun, phone, hop, permits.carveOut)
              && (forall q :: q in r.value.rows ==> q !in old(table.rows))
              && table.rows ==
                 Captured(old(table.rows), tun, AddedCarveOut(old(table.rows), phone, hop, permits.carveOut))
              && (forall ifMetric :: ReportsBest(old(table.rows), ifMetric, phone, hop) ==>
                    Installed(old(table.rows), ifMetric, tun, phone, hop,
                              AddedCarveOut(old(table.rows), phone, hop, permits.carveOut)))
  {
    var rows: seq<Route> := [];
    if phone.Some? && hop.Some? {
      var row := CarveOut(phone.value, hop.value);
      var ok := table.Create(row, CARVE_OUT_METRIC, permits.carveOut);
      if ok {
        rows := rows + [row];
      }
    }
    var low := table.Create(LowHalf(tun), CAPTURE_METRIC, permits.low);
    if !low {
      var added := new Routes(rows);
      added.Remove(table);
      return Err(());
    }
    rows := rows + [LowHalf(tun)];
    var high := table.Create(HighHalf(tun), CAPTURE_METRIC, permits.high);
    if !high {
      var added := new Routes(rows);
      added.Remove(table);
      return Err(());
    }
    rows := rows + [HighHalf(tun)];
    var routes := new Routes(rows);
    r := Ok(routes);
  }

  /** Taking the created rows out again gives the table there was. */
  lemma RemovedAgain(rows: Rows, tun: nat, carveOut: Option<Route>, created: seq<Route>)
    requires created == (if carveOut.Some? then [carveOut.value] else []) + [LowHalf(tun), HighHalf(tun)]
    requires forall q :: q in created ==> q !in rows
    ensures Captured(rows, tun, carveOut) - (set r | r in created) == rows
  {
    assert LowHalf(tun) in created && HighHalf(tun) in created;
    assert carveOut.Some? ==> created[0] == carveOut.value;
  }

  /** Of the created rows only a carve-out on another adapter outlives the adapter. */
  lemma CapturedOffAdapter(rows: Rows, tun: nat, carveOut: Option<Route>)
    ensures OffAdapter(Captured(rows, tun, carveOut), tun) ==
            if carveOut.Some? && carveOut.value.luid != tun
            then OffAdapter(rows, tun)[carveOut.value := CARVE_OUT_METRIC]
            else OffAdapter(rows, tun)
  {
  }

  /** Installing and then removing restores the table, whatever was in it. */
  method InstallThenRemove(table: RouteTable, tun: nat, phone: Option<Address>, hop: Option<Route>, permits: Permits)
    modifies table
    ensures table.rows == old(table.rows)
  {
    var r := Install(table, tun, phone, hop, permits);
    if r.Ok? {
      r.value.Remove(table);
    }
  }

  // ---- What is captured --------------------------------------------------------------------

  /** Some route covering `a` is preferred over nothing: a non-empty choice has a best element. */
  lemma {:induction false} BestExists(rows: Rows, ifMetric: nat -> nat, a: Address, r: Route)
    requires r in rows && Matches(r, a)
    ensures exists b :: Best(rows, ifMetric, a, b)
    decreases |rows|
  {
    var rest := rows - {r};
    if q :| q in rest && Matches(q, a) {
      BestExists(rest, ifMetric, a, q);
      var b :| Best(rest, ifMetric, a, b);
      assert forall p :: p in rows ==> p == r || (p in rest && Cost(rows, ifMetric, p) == Cost(rest, ifMetric, p));
      if r.len < b.len || (r.len == b.len && Cost(rows, ifMetric, b) <= Cost(rows, ifMetric, r)) {
        assert Best(rows, ifMetric, a, b);
      } else {
        assert Best(rows, ifMetric, a, r);
      }
    } else {
      assert forall p :: p in rows && Matches(p, a) ==> p == r || p in rest;
      assert Best(rows, ifMetric, a, r);
    }
  }

  /** The two halves cover every address, each address by exactly one. */
  lemma HalvesCover(tun: nat, a: Address)
    ensures Half(tun, a) == Route(if a < 0x8000_0000 then 0 else 0x8000_0000, 1, tun, 0)
    ensures Matches(LowHalf(tun), a) <==> Half(tun, a) == LowHalf(tun)
    ensures Matches(HighHalf(tun), a) <==> Half(tun, a) == HighHalf(tun)
  {
    assert Pow2(8) == 256;
    assert Pow2(16) == 0x1_0000;
    assert Pow2(24) == 0x100_0000;
    assert Pow2(31) == 0x8000_0000;
  }

  lemma SameBlock(a: nat, b: nat, d: nat)
    requires d > 0 && b % d == 0
    ensures a / d == b / d <==> b <= a < b + d
  {
    assert a == d * (a / d) + a % d && b == d * (b / d);
    if a / d > b / d {
      assert d * (a / d) >= d * (b / d + 1);
    } else if a / d < b / d {
      assert d * (b / d) >= d * (a / d + 1);
    }
  }

  /** A prefix covers a block of addresses from its destination on, halving with every bit. */
  lemma PrefixCovers(r: Route, a: Address)
    requires r.len <= 32 && r.dest % BlockSize(r.len) == 0
    ensures Matches(r, a) <==> r.dest <= a < r.dest + BlockSize(r.len)
    ensures BlockSize(32) == 1 && (r.len > 0 ==> BlockSize(r.len - 1) == 2 * BlockSize(r.len))
  {
    SameBlock(a, r.dest, BlockSize(r.len));
  }

  /** A host route covers its own address and no other. */
  lemma HostRouteCovers(r: Route, a: Address)
    requires r.len == 32
    ensures Matches(r, a) <==> a == r.dest
  {
    assert Pow2(0) == 1;
  }

  /** The rows covering `a` after an install: those covering it before, its half, and its carve-out. */
  lemma CoveringAfter(rows: Rows, tun: nat, carveOut: Option<Route>, a: Address, q: Route)
    requires carveOut.Some? ==> carveOut.value.len == 32
    ensures q in Captured(rows, tun, carveOut) && Matches(q, a) <==>
            || (q in rows && Matches(q, a))
            || q == Half(tun, a)
            || (carveOut == Some(q) && a == q.dest)
  {
    HalvesCover(tun, a);
    if carveOut.Some? {
      HostRouteCovers(carveOut.value, a);
    }
  }

  /** The phone, once carved out, is reached by one host route alone, through the gateway and interface it had. */
  lemma PhoneStaysReachable(rows: Rows, ifMetric: nat -> nat, tun: nat, phone: Address, hop: Route, r: Route)
    requires Installed(rows, ifMetric, tun, Some(phone), Some(hop), Some(CarveOut(phone, hop)))
    ensures Best(Captured(rows, tun, Some(CarveOut(phone, hop))), ifMetric, phone, r) <==>
            r == Route(phone, 32, hop.luid, hop.gateway)
  {
    var c := CarveOut(phone, hop);
    var after := Captured(rows, tun, Some(c));
    forall q | q in rows && Matches(q, phone)
      ensures q.len < 32
    {
      if q.len == 32 {
        HostRouteCovers(q, phone);
        // Then the best hop was itself a host route to the phone, and the carve-out would be that row.
        HostRouteCovers(hop, phone);
        assert false;
      }
    }
    forall q ensures q in after && Matches(q, phone) ==> q == c || q.len < 32 {
      CoveringAfter(rows, tun, Some(c), phone, q);
    }
    CoveringAfter(rows, tun, Some(c), phone, c);
  }

  /** Every address covered more specifically than by half a default keeps precisely its routes. */
  lemma SpecificRoutesStay(rows: Rows, ifMetric: nat -> nat, tun: nat, phone: Option<Address>, hop: Option<Route>,
                           carveOut: Option<Route>, a: Address, specific: Route, r: Route)
    requires Installed(rows, ifMetric, tun, phone, hop, carveOut)
    requires carveOut.Some? ==> phone != Some(a)
    requires specific in rows && Matches(specific, a) && specific.len > 1
    ensures Best(Captured(rows, tun, carveOut), ifMetric, a, r) <==> Best(rows, ifMetric, a, r)
  {
    var after := Captured(rows, tun, carveOut);
    forall q ensures q in after && Matches(q, a) <==> (q in rows && Matches(q, a)) || q == Half(tun, a) {
      CoveringAfter(rows, tun, carveOut, a, q);
    }
    assert forall q :: q in rows ==> Cost(after, ifMetric, q) == Cost(rows, ifMetric, q);
  }

  /**
   Capture, exactly. An address other than a carved-out phone goes to the tunnel and nowhere else
   if and only if every route that covered it was less specific than half a default, or just as
   specific but dearer than the tunnel's.
   */
  lemma CapturedExactly(rows: Rows, ifMetric: nat -> nat, tun: nat, phone: Option<Address>, hop: Option<Route>,
                        carveOut: Option<Route>, a: Address)
    requires Installed(rows, ifMetric, tun, phone, hop, carveOut)
    requires carveOut.Some? ==> phone != Some(a)
    ensures (forall r :: Best(Captured(rows, tun, carveOut), ifMetric, a, r) <==> r == Half(tun, a)) <==>
            (forall q :: q in rows && Matches(q, a) ==>
               q.len < 1 || (q.len == 1 && Cost(rows, ifMetric, q) > CAPTURE_METRIC + ifMetric(tun)))
  {
    var after, h := Captured(rows, tun, carveOut), Half(tun, a);
    forall q ensures q in after && Matches(q, a) <==> (q in rows && Matches(q, a)) || q == h {
      CoveringAfter(rows, tun, carveOut, a, q);
    }
    assert forall q :: q in rows ==> Cost(after, ifMetric, q) == Cost(rows, ifMetric, q);
    assert Cost(after, ifMetric, h) == CAPTURE_METRIC + ifMetric(tun);
    if q :| q in rows && Matches(q, a)
            && !(q.len < 1 || (q.len == 1 && Cost(rows, ifMetric, q) > CAPTURE_METRIC + ifMetric(tun))) {
      assert q in after && Matches(q, a) && q != h;
      if Best(after, ifMetric, a, h) {
        assert Best(after, ifMetric, a, q);
      }
    }
  }

  /** The usual case: with no half-default routes of anyone else's, whatever went to the default route
      or nowhere now goes to the tunnel. */
  lemma DefaultIsCaptured(rows: Rows, ifMetric: nat -> nat, tun: nat, phone: Option<Address>, hop: Option<Route>,
                          carveOut: Option<Route>, a: Address, r: Route)
    requires Installed(rows, ifMetric, tun, phone, hop, carveOut)
    requires carveOut.Some? ==> phone != Some(a)
    requires forall q :: q in rows ==> q.len != 1
    requires forall b :: Best(rows, ifMetric, a, b) ==> b.len == 0
    ensures Best(Captured(rows, tun, carveOut), ifMetric, a, r) <==> r == Half(tun, a)
  {
    forall q | q in rows && Matches(q, a)
      ensures q.len < 1
    {
      BestExists(rows, ifMetric, a, q);
    }
    CapturedExactly(rows, ifMetric, tun, phone, hop, carveOut, a);
  }
}
