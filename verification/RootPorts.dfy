/**
 The assignment of host root ports to guest root ports by `assign_root_port_identities` of
 `01_generate_identity.py`: guests in role order each take the best host left by their own ranking.
 */
module RootPorts {
  import opened Outcomes
  import opened Sequences
  import opened Sorting

  datatype Role = Gpu | Nvme | Nic | Usb | Audio | Other | Empty

  datatype Host = Host(bdf: string, role: Role, width: int)
  datatype Guest = Guest(bus: int, port: int, role: Role)
  datatype Item = Item(host: Host, guest: Guest)

  /** The position of a role in `ROOT_PORT_ROLE_ORDER`. */
  function RoleIndex(role: Role): nat {
    match role
    case Gpu => 0
    case Nvme => 1
    case Nic => 2
    case Usb => 3
    case Audio => 4
    case Other => 5
    case Empty => 6
  }

  // ---- Ranks ---------------------------------------------------------------------------------

  datatype Rank = Rank(bucket: nat, measure: int, bdf: string)

  /** The buckets from this one on are never assigned. */
  const UNUSABLE := 9

  function Abs(x: int): int {
    if x < 0 then -x else x
  }

  /** `host_root_port_rank`; smaller is better. */
  function RankOf(guest: Role, host: Host): Rank {
    match guest
    case Gpu =>
      Rank(if host.role == Gpu then 0 else if host.width >= 8 then 1 else if host.width >= 4 then 2 else 9,
           -host.width, host.bdf)
    case Nvme =>
      Rank(if host.role == Nvme then 0 else if host.width >= 4 then 1 else 9, Abs(host.width - 4), host.bdf)
    case Nic =>
      Rank(if host.role == Nic then 0 else if host.role == Empty && host.width <= 1 then 1
           else if host.width <= 4 then 2 else 3,
           host.width, host.bdf)
    case Empty =>
      Rank(if host.role == Empty then 0 else if host.width <= 1 then 1 else if host.width <= 4 then 2 else 3,
           host.width, host.bdf)
    case _ =>
      Rank(if host.role == guest then 0 else if host.role == Empty then 1 else if host.width <= 4 then 2 else 3,
           host.width, host.bdf)
  }

  /** Alphabetical order. */
  predicate TextLess(a: string, b: string) {
    b != "" && (a == "" || a[0] < b[0] || (a[0] == b[0] && TextLess(a[1..], b[1..])))
  }

  lemma {:induction false} TextTotal(a: string, b: string)
    ensures a == b || TextLess(a, b) || TextLess(b, a)
    ensures !(TextLess(a, b) && TextLess(b, a)) && !TextLess(a, a)
  {
    if a != "" && b != "" && a[0] == b[0] {
      TextTotal(a[1..], b[1..]);
      assert [a[0]] + a[1..] == a && [b[0]] + b[1..] == b;
    }
    if a != "" {
      TextTotal(a[1..], a[1..]);
    }
  }

  lemma {:induction false} TextTransitive(a: string, b: string, c: string)
    requires TextLess(a, b) && TextLess(b, c)
    ensures TextLess(a, c)
  {
    if a != "" && a[0] == b[0] && b[0] == c[0] {
      TextTransitive(a[1..], b[1..], c[1..]);
    }
  }

  predicate Better(r: Rank, s: Rank) {
    || r.bucket < s.bucket
    || (r.bucket == s.bucket
        && (r.measure < s.measure || (r.measure == s.measure && TextLess(r.bdf, s.bdf))))
  }

  lemma BetterTotal(r: Rank, s: Rank)
    ensures r == s || Better(r, s) || Better(s, r)
    ensures !(Better(r, s) && Better(s, r)) && !Better(r, r)
  {
    TextTotal(r.bdf, s.bdf);
    TextTotal(r.bdf, r.bdf);
  }

  lemma BetterTransitive(r: Rank, s: Rank, t: Rank)
    requires Better(r, s) && Better(s, t)
    ensures Better(r, t)
  {
    if r.bucket == s.bucket == t.bucket && r.measure == s.measure == t.measure {
      TextTransitive(r.bdf, s.bdf, t.bdf);
    }
  }

  // ---- The guests in processing order --------------------------------------------------------

  predicate GuestLess(g: Guest, h: Guest) {
    RoleIndex(g.role) < RoleIndex(h.role) || (g.role == h.role && g.port < h.port)
  }

  function InsertGuest(s: seq<Guest>, g: Guest): seq<Guest> {
    if s == [] || GuestLess(g, s[0]) then [g] + s else [s[0]] + InsertGuest(s[1..], g)
  }

  /** `sorted` by role order and port; guests with equal keys keep their order. */
  function SortGuests(guests: seq<Guest>): seq<Guest> {
    if guests == [] then [] else InsertGuest(SortGuests(guests[..|guests| - 1]), guests[|guests| - 1])
  }

  predicate Sorted(s: seq<Guest>) {
    forall i, j :: 0 <= i < j < |s| ==> GuestLess(s[i], s[j])
  }

  predicate DistinctPorts(guests: seq<Guest>) {
    forall i, j :: 0 <= i < j < |guests| ==> guests[i].port != guests[j].port
  }

  predicate DistinctBdfs(hosts: seq<Host>) {
    forall i, j :: 0 <= i < j < |hosts| ==> hosts[i].bdf != hosts[j].bdf
  }

  lemma {:induction false} InsertCounts(s: seq<Guest>, g: Guest)
    ensures multiset(InsertGuest(s, g)) == multiset(s) + multiset{g}
  {
    hide GuestLess;
    if s != [] && !GuestLess(g, s[0]) {
      InsertCounts(s[1..], g);
      assert s == [s[0]] + s[1..];
    }
  }

  lemma InsertMembers(s: seq<Guest>, g: Guest)
    ensures forall x :: x in InsertGuest(s, g) <==> x in s || x == g
  {
    hide InsertGuest;
    InsertCounts(s, g);
    forall x
      ensures x in InsertGuest(s, g) <==> x in s || x == g
    {
      assert x in InsertGuest(s, g) <==> x in multiset(InsertGuest(s, g));
      assert x in s <==> x in multiset(s);
    }
  }

  lemma LessOrMore(g: Guest, h: Guest)
    requires g.port != h.port
    ensures GuestLess(g, h) || GuestLess(h, g)
  {
  }

  lemma LessTransitive(g: Guest, h: Guest, k: Guest)
    requires GuestLess(g, h) && GuestLess(h, k)
    ensures GuestLess(g, k)
  {
  }

  lemma {:induction false} InsertSorts(s: seq<Guest>, g: Guest)
    requires Sorted(s) && forall x :: x in s ==> x.port != g.port
    ensures Sorted(InsertGuest(s, g))
  {
    hide GuestLess;
    if s == [] {
    } else if GuestLess(g, s[0]) {
      forall j | 0 <= j < |s|
        ensures GuestLess(g, s[j])
      {
        if j > 0 {
          LessTransitive(g, s[0], s[j]);
        }
      }
      assert ([g] + s)[1..] == s;
    } else {
      InsertSorts(s[1..], g);
      InsertMembers(s[1..], g);
      var rest := InsertGuest(s[1..], g);
      LessOrMore(g, s[0]);
      forall j | 0 <= j < |rest|
        ensures GuestLess(s[0], rest[j])
      {
        assert rest[j] in rest;
        if rest[j] != g {
          var k :| 0 <= k < |s[1..]| && s[1..][k] == rest[j];
          assert s[k + 1] == rest[j];
        }
      }
      assert ([s[0]] + rest)[1..] == rest;
    }
  }

  lemma {:induction false} SortSorts(guests: seq<Guest>)
    requires DistinctPorts(guests)
    ensures Sorted(SortGuests(guests)) && multiset(SortGuests(guests)) == multiset(guests)
    ensures forall x :: x in SortGuests(guests) <==> x in guests
  {
    if guests != [] {
      var front, g := guests[..|guests| - 1], guests[|guests| - 1];
      SortSorts(front);
      assert guests == front + [g];
      InsertSorts(SortGuests(front), g);
      InsertCounts(SortGuests(front), g);
      InsertMembers(SortGuests(front), g);
    }
  }

  lemma TailGuest(s: seq<Guest>, x: Guest)
    requires s != [] && Sorted(s)
    ensures x in s[1..] <==> x in s && x != s[0]
  {
    if x in s && x != s[0] {
      var i :| 0 <= i < |s| && s[i] == x;
      assert s[1..][i - 1] == x;
    }
  }

  lemma {:induction false} SortedUnique(a: seq<Guest>, b: seq<Guest>)
    requires Sorted(a) && Sorted(b) && forall x :: x in a <==> x in b
    ensures a == b
  {
    assert a != [] ==> a[0] in a && a[0] in b;
    assert b != [] ==> b[0] in b && b[0] in a;
    if a != [] {
      assert a[0] == b[0];
      forall x
        ensures x in a[1..] <==> x in b[1..]
      {
        TailGuest(a, x);
        TailGuest(b, x);
      }
      SortedUnique(a[1..], b[1..]);
      assert a == [a[0]] + a[1..] && b == [b[0]] + b[1..];
    }
  }

  // ---- The assignment ------------------------------------------------------------------------

  /** The first host with the best rank, as the head of the sorted list. */
  function Choose(guest: Role, hosts: seq<Host>): (h: Host)
    requires hosts != []
    ensures h in hosts
  {
    if |hosts| == 1 then hosts[0]
    else
      var rest := Choose(guest, hosts[1..]);
      if Better(RankOf(guest, rest), RankOf(guest, hosts[0])) then rest else hosts[0]
  }

  lemma {:induction false} ChosenIsBest(guest: Role, hosts: seq<Host>, h: Host)
    requires h in hosts
    ensures !Better(RankOf(guest, h), RankOf(guest, Choose(guest, hosts)))
  {
    hide RankOf, Better;
    var best := RankOf(guest, Choose(guest, hosts));
    BetterTotal(best, best);
    if |hosts| > 1 {
      var rest := Choose(guest, hosts[1..]);
      BetterTotal(RankOf(guest, rest), RankOf(guest, hosts[0]));
      if h in hosts[1..] {
        ChosenIsBest(guest, hosts[1..], h);
        if Better(RankOf(guest, h), RankOf(guest, hosts[0])) && best == RankOf(guest, hosts[0]) {
          BetterTotal(RankOf(guest, h), RankOf(guest, rest));
          if Better(RankOf(guest, rest), RankOf(guest, h)) {
            BetterTransitive(RankOf(guest, rest), RankOf(guest, h), RankOf(guest, hosts[0]));
          }
        }
      } else {
        assert h == hosts[0];
      }
    }
  }

  function Without(hosts: seq<Host>, bdf: string): (rest: seq<Host>)
    ensures |rest| <= |hosts|
    ensures forall h :: h in rest <==> h in hosts && h.bdf != bdf
  {
    if hosts == [] then []
    else (if hosts[0].bdf != bdf then [hosts[0]] else []) + Without(hosts[1..], bdf)
  }

  predicate Stuck(guest: Role, hosts: seq<Host>) {
    hosts == [] || RankOf(guest, Choose(guest, hosts)).bucket >= UNUSABLE
  }

  /** The greedy pass over guests that are already in processing order. */
  function Greedy(ordered: seq<Guest>, remaining: seq<Host>): Result<seq<Item>> {
    if ordered == [] then Ok([])
    else if Stuck(ordered[0].role, remaining) then Err(RuntimeError)
    else
      var chosen := Choose(ordered[0].role, remaining);
      var rest :- Greedy(ordered[1..], Without(remaining, chosen.bdf));
      Ok([Item(chosen, ordered[0])] + rest)
  }

  function ByPort(items: seq<Item>): map<int, Item> {
    if items == [] then map[] else ByPort(items[..|items| - 1])[items[|items| - 1].guest.port := items[|items| - 1]]
  }

  lemma KeysListed(mapping: map<int, Item>)
    ensures forall i :: 0 <= i < |SortedSet(mapping.Keys)| ==> SortedSet(mapping.Keys)[i] in mapping
  {
    var ports := SortedSet(mapping.Keys);
    SortedSetSorts(mapping.Keys);
    forall i | 0 <= i < |ports|
      ensures ports[i] in mapping
    {
      assert ports[i] in Elements(ports);
    }
  }

  /** The mapping's items in the order of their ports. */
  function Listing(mapping: map<int, Item>): seq<Item> {
    KeysListed(mapping);
    var ports := SortedSet(mapping.Keys);
    seq(|ports|, i requires 0 <= i < |ports| => mapping[ports[i]])
  }

  function Assigned(guests: seq<Guest>, hosts: seq<Host>): Result<seq<Item>> {
    if |guests| > |hosts| then Err(RuntimeError)
    else
      var items :- Greedy(SortGuests(guests), hosts);
      Ok(Listing(ByPort(items)))
  }

  /** `assign_root_port_identities`. */
  method AssignRootPortIdentities(guests: seq<Guest>, hosts: seq<Host>) returns (r: Result<seq<Item>>)
    ensures r == Assigned(guests, hosts)
  {
    hide Choose, Without, Listing, SortGuests, Stuck, RankOf;
    if |guests| > |hosts| {
      return Err(RuntimeError);
    }
    var remaining, mapping: map<int, Item> := hosts, map[];
    ghost var done: seq<Item> := [];
    var ordered := SortGuests(guests);
    assert ordered[0..] == ordered;
    ContinuedNone(Greedy(ordered, hosts));
    for i := 0 to |ordered|
      invariant mapping == ByPort(done)
      invariant Greedy(ordered, hosts) == Continued(done, Greedy(ordered[i..], remaining))
    {
      var guest := ordered[i];
      assert ordered[i..][0] == guest && ordered[i..][1..] == ordered[i + 1..];
      if Stuck(guest.role, remaining) {
        return Err(RuntimeError);
      }
      var chosen := Choose(guest.role, remaining);
      ContinuedStep(done, Item(chosen, guest), Greedy(ordered[i + 1..], Without(remaining, chosen.bdf)));
      remaining := Without(remaining, chosen.bdf);
      mapping := mapping[guest.port := Item(chosen, guest)];
      assert (done + [Item(chosen, guest)])[..|done|] == done;
      done := done + [Item(chosen, guest)];
    }
    assert ordered[|ordered|..] == [] && done + [] == done;
    return Ok(Listing(mapping));
  }

  function Continued(done: seq<Item>, rest: Result<seq<Item>>): Result<seq<Item>> {
    var items :- rest;
    Ok(done + items)
  }

  lemma ContinuedNone(rest: Result<seq<Item>>)
    ensures Continued([], rest) == rest
  {
    if rest.Ok? {
      assert [] + rest.value == rest.value;
    }
  }

  lemma ContinuedStep(done: seq<Item>, item: Item, rest: Result<seq<Item>>)
    ensures Continued(done, Continued([item], rest)) == Continued(done + [item], rest)
  {
    if rest.Ok? {
      assert done + ([item] + rest.value) == done + [item] + rest.value;
    }
  }

  // ---- What an assignment means --------------------------------------------------------------

  /** The host of item `i` is not used by an earlier item. */
  predicate Unused(items: seq<Item>, i: nat, h: Host)
    requires i <= |items|
  {
    forall j :: 0 <= j < i ==> items[j].host.bdf != h.bdf
  }

  /** Every guest in order, each with a host of its own that it can use. */
  predicate Covers(ordered: seq<Guest>, hosts: seq<Host>, items: seq<Item>) {
    && |items| == |ordered|
    && (forall i :: 0 <= i < |items| ==> items[i].guest == ordered[i] && items[i].host in hosts)
    && (forall i :: 0 <= i < |items| ==> Unused(items, i, items[i].host))
    && (forall i :: 0 <= i < |items| ==> RankOf(ordered[i].role, items[i].host).bucket < UNUSABLE)
  }

  /** No guest ranks a host that is left over, or given to a later guest, above its own. */
  predicate NoEnvy(ordered: seq<Guest>, hosts: seq<Host>, items: seq<Item>)
    requires |items| == |ordered|
  {
    forall i, h :: 0 <= i < |items| && h in hosts && Unused(items, i, h)
                   ==> !Better(RankOf(ordered[i].role, h), RankOf(ordered[i].role, items[i].host))
  }

  predicate Fair(ordered: seq<Guest>, hosts: seq<Host>, items: seq<Item>) {
    Covers(ordered, hosts, items) && NoEnvy(ordered, hosts, items)
  }

  lemma RankCarriesBdf(guest: Role, h: Host)
    ensures RankOf(guest, h).bdf == h.bdf
  {
  }

  lemma BdfIdentifies(hosts: seq<Host>, g: Host, h: Host)
    requires DistinctBdfs(hosts) && g in hosts && h in hosts && g.bdf == h.bdf
    ensures g == h
  {
    var i :| 0 <= i < |hosts| && hosts[i] == g;
    var j :| 0 <= j < |hosts| && hosts[j] == h;
  }

  lemma {:induction false} WithoutKeepsDistinct(hosts: seq<Host>, bdf: string)
    requires DistinctBdfs(hosts)
    ensures DistinctBdfs(Without(hosts, bdf))
  {
    if hosts != [] {
      var rest := Without(hosts[1..], bdf);
      WithoutKeepsDistinct(hosts[1..], bdf);
      if hosts[0].bdf != bdf {
        forall j | 0 <= j < |rest|
          ensures rest[j].bdf != hosts[0].bdf
        {
          assert rest[j] in hosts[1..];
          var k :| 0 <= k < |hosts[1..]| && hosts[1..][k] == rest[j];
          assert hosts[k + 1] == rest[j];
        }
      }
    }
  }

  /** A fair assignment of all guests is a fair assignment of the rest with the first host taken away. */
  lemma FairTail(ordered: seq<Guest>, hosts: seq<Host>, items: seq<Item>)
    requires items != [] && Fair(ordered, hosts, items)
    ensures Fair(ordered[1..], Without(hosts, items[0].host.bdf), items[1..])
  {
    hide RankOf, Better;
    var rest, left := items[1..], Without(hosts, items[0].host.bdf);
    forall i | 0 <= i < |rest|
      ensures rest[i].host in left && Unused(rest, i, rest[i].host)
    {
      assert Unused(items, i + 1, items[i + 1].host);
      assert items[0].host.bdf != items[i + 1].host.bdf;
      forall j | 0 <= j < i
        ensures rest[j].host.bdf != rest[i].host.bdf
      {
        assert rest[j] == items[j + 1];
      }
    }
    forall i, h | 0 <= i < |rest| && h in left && Unused(rest, i, h)
      ensures !Better(RankOf(ordered[1..][i].role, h), RankOf(ordered[1..][i].role, rest[i].host))
    {
      forall j | 0 <= j < i + 1
        ensures items[j].host.bdf != h.bdf
      {
        assert j > 0 ==> rest[j - 1] == items[j];
      }
      assert Unused(items, i + 1, h);
    }
  }

  lemma FairNeedsHosts(ordered: seq<Guest>, hosts: seq<Host>, items: seq<Item>)
    requires ordered != []
    ensures Fair(ordered, hosts, items) ==> hosts != []
  {
    if Fair(ordered, hosts, items) {
      assert items[0].host in hosts;
    }
  }

  lemma CoversCons(ordered: seq<Guest>, hosts: seq<Host>, first: Item, rest: seq<Item>)
    requires ordered != [] && first.guest == ordered[0] && first.host in hosts
    requires RankOf(first.guest.role, first.host).bucket < UNUSABLE
    requires Covers(ordered[1..], Without(hosts, first.host.bdf), rest)
    ensures Covers(ordered, hosts, [first] + rest)
  {
    hide RankOf, Better, Unused;
    var items := [first] + rest;
    forall i | 0 <= i < |items|
      ensures items[i].guest == ordered[i] && items[i].host in hosts && Unused(items, i, items[i].host)
      ensures RankOf(ordered[i].role, items[i].host).bucket < UNUSABLE
    {
      if i > 0 {
        assert items[i] == rest[i - 1] && ordered[i] == ordered[1..][i - 1];
        UnusedCons(first, rest, i, rest[i - 1].host);
      } else {
        NothingUsed(items, items[0].host);
      }
    }
  }

  lemma NothingUsed(items: seq<Item>, h: Host)
    ensures Unused(items, 0, h)
  {
  }

  lemma UnusedCons(first: Item, rest: seq<Item>, i: nat, h: Host)
    requires 0 < i <= |rest| + 1 && first.host.bdf != h.bdf && Unused(rest, i - 1, h)
    ensures Unused([first] + rest, i, h)
  {
    forall j | 0 <= j < i
      ensures ([first] + rest)[j].host.bdf != h.bdf
    {
      assert j > 0 ==> ([first] + rest)[j] == rest[j - 1];
    }
  }

  lemma UnusedTail(first: Item, rest: seq<Item>, i: nat, h: Host)
    requires 0 < i <= |rest| + 1 && Unused([first] + rest, i, h)
    ensures first.host.bdf != h.bdf && Unused(rest, i - 1, h)
  {
    var items := [first] + rest;
    assert items[0].host.bdf != h.bdf;
    forall j | 0 <= j < i - 1
      ensures rest[j].host.bdf != h.bdf
    {
      assert items[j + 1] == rest[j];
    }
  }

  lemma FairCons(ordered: seq<Guest>, hosts: seq<Host>, first: Item, rest: seq<Item>)
    requires ordered != [] && first.guest == ordered[0] && first.host in hosts
    requires RankOf(first.guest.role, first.host).bucket < UNUSABLE
    requires forall h :: h in hosts ==> !Better(RankOf(first.guest.role, h), RankOf(first.guest.role, first.host))
    requires Fair(ordered[1..], Without(hosts, first.host.bdf), rest)
    ensures Fair(ordered, hosts, [first] + rest)
  {
    hide RankOf, Better, Unused;
    CoversCons(ordered, hosts, first, rest);
    var items := [first] + rest;
    forall i, h | 0 <= i < |items| && h in hosts && Unused(items, i, h)
      ensures !Better(RankOf(ordered[i].role, h), RankOf(ordered[i].role, items[i].host))
    {
      if i > 0 {
        assert items[i] == rest[i - 1] && ordered[i] == ordered[1..][i - 1];
        UnusedTail(first, rest, i, h);
      }
    }
  }

  /**
   The greedy pass finds exactly the fair assignments: it succeeds with some items if and only if those
   items give every guest its own usable host with no envy towards hosts left over or given away later.
   */
  lemma {:induction false} GreedyIsFair(ordered: seq<Guest>, hosts: seq<Host>, items: seq<Item>)
    requires DistinctBdfs(hosts)
    ensures Greedy(ordered, hosts) == Ok(items) <==> Fair(ordered, hosts, items)
    decreases |ordered|
  {
    hide Fair, RankOf, Better, Choose, Without;
    if ordered == [] {
      NoGuests(hosts, items);
    } else if hosts == [] {
      FairNeedsHosts(ordered, hosts, items);
    } else {
      var role := ordered[0].role;
      var chosen := Choose(role, hosts);
      var left := Without(hosts, chosen.bdf);
      WithoutKeepsDistinct(hosts, chosen.bdf);
      if Greedy(ordered, hosts) == Ok(items) {
        GreedyIsFair(ordered[1..], left, items[1..]);
        FairCovers(ordered[1..], left, items[1..]);
        forall h | h in hosts
          ensures !Better(RankOf(role, h), RankOf(role, chosen))
        {
          ChosenIsBest(role, hosts, h);
        }
        assert items == [Item(chosen, ordered[0])] + items[1..];
        FairCons(ordered, hosts, Item(chosen, ordered[0]), items[1..]);
      }
      if Fair(ordered, hosts, items) {
        FirstIsChosen(ordered, hosts, items);
        FirstIsUsable(ordered, hosts, items);
        FairTail(ordered, hosts, items);
        GreedyIsFair(ordered[1..], left, items[1..]);
        assert items == [items[0]] + items[1..];
      }
    }
  }

  lemma NoGuests(hosts: seq<Host>, items: seq<Item>)
    ensures Fair([], hosts, items) <==> items == []
  {
  }

  lemma FirstIsUsable(ordered: seq<Guest>, hosts: seq<Host>, items: seq<Item>)
    requires ordered != [] && Fair(ordered, hosts, items)
    ensures items != [] && RankOf(ordered[0].role, items[0].host).bucket < UNUSABLE
  {
  }

  lemma FirstIsChosen(ordered: seq<Guest>, hosts: seq<Host>, items: seq<Item>)
    requires ordered != [] && hosts != [] && DistinctBdfs(hosts) && Fair(ordered, hosts, items)
    ensures items != [] && items[0] == Item(Choose(ordered[0].role, hosts), ordered[0])
  {
    hide RankOf, Better;
    var role := ordered[0].role;
    var chosen := Choose(role, hosts);
    assert Unused(items, 0, chosen);
    ChosenIsBest(role, hosts, items[0].host);
    BetterTotal(RankOf(role, chosen), RankOf(role, items[0].host));
    RankCarriesBdf(role, chosen);
    RankCarriesBdf(role, items[0].host);
    BdfIdentifies(hosts, chosen, items[0].host);
  }

  lemma FairKeepsMembers(ordered: seq<Guest>, a: seq<Host>, b: seq<Host>, items: seq<Item>)
    requires Fair(ordered, a, items) && forall h :: h in a <==> h in b
    ensures Fair(ordered, b, items)
  {
    hide RankOf, Better;
  }

  /** The order of the hosts does not matter, only which hosts there are. */
  lemma HostOrderIsIrrelevant(ordered: seq<Guest>, a: seq<Host>, b: seq<Host>)
    requires DistinctBdfs(a) && DistinctBdfs(b) && forall h :: h in a <==> h in b
    ensures Greedy(ordered, a) == Greedy(ordered, b)
  {
    GreedyErrors(ordered, a);
    GreedyErrors(ordered, b);
    if Greedy(ordered, a).Ok? {
      var items := Greedy(ordered, a).value;
      GreedyIsFair(ordered, a, items);
      FairKeepsMembers(ordered, a, b, items);
      GreedyIsFair(ordered, b, items);
    } else if Greedy(ordered, b).Ok? {
      var items := Greedy(ordered, b).value;
      GreedyIsFair(ordered, b, items);
      FairKeepsMembers(ordered, b, a, items);
      GreedyIsFair(ordered, a, items);
    }
  }

  lemma {:induction false} GreedyErrors(ordered: seq<Guest>, hosts: seq<Host>)
    ensures Greedy(ordered, hosts).Err? ==> Greedy(ordered, hosts) == Err(RuntimeError)
    decreases |ordered|
  {
    if ordered != [] && !Stuck(ordered[0].role, hosts) {
      GreedyErrors(ordered[1..], Without(hosts, Choose(ordered[0].role, hosts).bdf));
    }
  }

  /** The result depends on neither input order when ports and BDFs are distinct. */
  lemma OrderIsIrrelevant(guests: seq<Guest>, hosts: seq<Host>, otherGuests: seq<Guest>, otherHosts: seq<Host>)
    requires DistinctPorts(guests) && DistinctBdfs(hosts) && DistinctPorts(otherGuests) && DistinctBdfs(otherHosts)
    requires multiset(guests) == multiset(otherGuests) && multiset(hosts) == multiset(otherHosts)
    ensures Assigned(guests, hosts) == Assigned(otherGuests, otherHosts)
  {
    assert |guests| == |multiset(guests)| == |multiset(otherGuests)| == |otherGuests|;
    assert |hosts| == |multiset(hosts)| == |multiset(otherHosts)| == |otherHosts|;
    SortSorts(guests);
    SortSorts(otherGuests);
    SameMembers(guests, otherGuests);
    SameMembers(hosts, otherHosts);
    SortedUnique(SortGuests(guests), SortGuests(otherGuests));
    HostOrderIsIrrelevant(SortGuests(guests), hosts, otherHosts);
  }

  lemma SameMembers<T>(a: seq<T>, b: seq<T>)
    requires multiset(a) == multiset(b)
    ensures forall x :: x in a <==> x in b
  {
    forall x
      ensures x in a <==> x in b
    {
      assert x in a <==> x in multiset(a);
      assert x in b <==> x in multiset(b);
    }
  }

  // ---- The listing ---------------------------------------------------------------------------

  predicate DistinctItems(items: seq<Item>) {
    forall i, j :: 0 <= i < j < |items| ==> items[i].guest.port != items[j].guest.port
  }

  lemma {:induction false} ByPortHolds(items: seq<Item>)
    requires DistinctItems(items)
    ensures forall i ::
      0 <= i < |items| ==> items[i].guest.port in ByPort(items) && ByPort(items)[items[i].guest.port] == items[i]
    ensures forall port ::
      port in ByPort(items) ==> ByPort(items)[port] in items && ByPort(items)[port].guest.port == port
    ensures |ByPort(items)| == |items|
  {
    if items != [] {
      var front, last := items[..|items| - 1], items[|items| - 1];
      ByPortHolds(front);
      assert items == front + [last];
      forall i | 0 <= i < |front|
        ensures front[i].guest.port != last.guest.port
      {
        assert items[i] == front[i];
      }
      assert last.guest.port !in ByPort(front);
    }
  }

  predicate PortsAscend(items: seq<Item>) {
    forall i, j :: 0 <= i < j < |items| ==> items[i].guest.port < items[j].guest.port
  }

  /** The listing is the same items in ascending order of their ports. */
  lemma ListingSorts(items: seq<Item>)
    requires DistinctItems(items)
    ensures PortsAscend(Listing(ByPort(items))) && |Listing(ByPort(items))| == |items|
    ensures forall x :: x in Listing(ByPort(items)) <==> x in items
  {
    hide ByPort;
    var mapping := ByPort(items);
    var listed, ports := Listing(mapping), SortedSet(mapping.Keys);
    ByPortHolds(items);
    SortedSetSorts(mapping.Keys);
    KeysListed(mapping);
    assert |mapping.Keys| == |mapping|;
    forall i | 0 <= i < |listed|
      ensures listed[i].guest.port == ports[i] && listed[i] in items
    {
      assert ports[i] in mapping;
    }
    forall x | x in items
      ensures x in listed
    {
      assert x.guest.port in Elements(ports);
      var i :| 0 <= i < |ports| && ports[i] == x.guest.port;
      assert listed[i] == x;
    }
  }

  /** The items of guests that are processed before a given one. */
  predicate TakenBefore(r: seq<Item>, g: Guest, h: Host) {
    exists x :: x in r && GuestLess(x.guest, g) && x.host.bdf == h.bdf
  }

  /**
   A returned assignment lists every guest once in port order, never gives a host twice or in a bucket of 9
   or more, and no guest ranks any host that is left over or given to a later guest above its own.
   */
  predicate GoodAssignment(guests: seq<Guest>, hosts: seq<Host>, r: seq<Item>) {
    && PortsAscend(r) && |r| == |guests|
    && (forall g :: g in guests ==> HasItem(r, g))
    && (forall x :: x in r ==> x.guest in guests && x.host in hosts && RankOf(x.guest.role, x.host).bucket < UNUSABLE)
    && (forall x, y :: x in r && y in r && x != y ==> x.host.bdf != y.host.bdf)
    && (forall x, h :: x in r && h in hosts && !TakenBefore(r, x.guest, h)
                       ==> !Better(RankOf(x.guest.role, h), RankOf(x.guest.role, x.host)))
  }

  /** In processing order, being unused so far is the same as not being taken by an earlier guest. */
  lemma UnusedIsNotTaken(ordered: seq<Guest>, items: seq<Item>, r: seq<Item>, i: nat, h: Host)
    requires Sorted(ordered) && |items| == |ordered| && i < |ordered|
    requires forall k :: 0 <= k < |items| ==> items[k].guest == ordered[k]
    requires forall x :: x in r <==> x in items
    ensures Unused(items, i, h) <==> !TakenBefore(r, ordered[i], h)
  {
    if TakenBefore(r, ordered[i], h) {
      var x :| x in r && GuestLess(x.guest, ordered[i]) && x.host.bdf == h.bdf;
      var k :| 0 <= k < |items| && items[k] == x;
      assert k < i;
    }
    if !Unused(items, i, h) {
      var k :| 0 <= k < i && items[k].host.bdf == h.bdf;
      assert items[k] in r && GuestLess(items[k].guest, ordered[i]);
    }
  }

  lemma FairIsGood(guests: seq<Guest>, hosts: seq<Host>, items: seq<Item>, r: seq<Item>)
    requires DistinctPorts(guests) && Fair(SortGuests(guests), hosts, items)
    requires PortsAscend(r) && |r| == |items| && forall x :: x in r <==> x in items
    ensures GoodAssignment(guests, hosts, r)
  {
    hide RankOf, Better, SortGuests, GuestLess, PortsAscend, TakenBefore, Unused, NoEnvy;
    var ordered := SortGuests(guests);
    SortSorts(guests);
    SortCounts(guests);
    forall g | g in guests
      ensures HasItem(r, g)
    {
      var i :| 0 <= i < |ordered| && ordered[i] == g;
      assert items[i] in r;
    }
    forall x | x in r
      ensures x.guest in guests && x.host in hosts && RankOf(x.guest.role, x.host).bucket < UNUSABLE
    {
      var i :| 0 <= i < |items| && items[i] == x;
      assert ordered[i] in ordered;
    }
    forall x, h | x in r && h in hosts && !TakenBefore(r, x.guest, h)
      ensures !Better(RankOf(x.guest.role, h), RankOf(x.guest.role, x.host))
    {
      var i :| 0 <= i < |items| && items[i] == x;
      UnusedIsNotTaken(ordered, items, r, i, h);
      NoEnvyAt(ordered, hosts, items, i, h);
    }
    forall x, y | x in r && y in r && x != y
      ensures x.host.bdf != y.host.bdf
    {
      ItemsApart(items, x, y);
    }
  }

  lemma SortCounts(guests: seq<Guest>)
    requires DistinctPorts(guests)
    ensures |SortGuests(guests)| == |guests|
  {
    hide SortGuests;
    SortSorts(guests);
    assert |multiset(SortGuests(guests))| == |multiset(guests)|;
  }

  lemma NoEnvyAt(ordered: seq<Guest>, hosts: seq<Host>, items: seq<Item>, i: nat, h: Host)
    requires |items| == |ordered| && NoEnvy(ordered, hosts, items) && i < |items| && h in hosts && Unused(items, i, h)
    ensures !Better(RankOf(ordered[i].role, h), RankOf(ordered[i].role, items[i].host))
  {
    hide RankOf, Better, Unused;
  }

  lemma ItemsApart(items: seq<Item>, x: Item, y: Item)
    requires x in items && y in items && x != y
    requires forall i :: 0 <= i < |items| ==> Unused(items, i, items[i].host)
    ensures x.host.bdf != y.host.bdf
  {
    var i :| 0 <= i < |items| && items[i] == x;
    var j :| 0 <= j < |items| && items[j] == y;
    assert Unused(items, i, items[i].host) && Unused(items, j, items[j].host);
  }

  lemma DistinctFromPorts(guests: seq<Guest>, items: seq<Item>)
    requires DistinctPorts(guests) && |items| == |SortGuests(guests)|
    requires forall i :: 0 <= i < |items| ==> items[i].guest == SortGuests(guests)[i]
    ensures DistinctItems(items)
  {
    hide GuestLess;
    var ordered := SortGuests(guests);
    SortSorts(guests);
    forall i, j | 0 <= i < j < |items|
      ensures items[i].guest.port != items[j].guest.port
    {
      assert GuestLess(ordered[i], ordered[j]);
      NotItself(ordered[i], ordered[j]);
      SamePortSameGuest(guests, ordered[i], ordered[j]);
    }
  }

  lemma NotItself(g: Guest, h: Guest)
    requires GuestLess(g, h)
    ensures g != h
  {
  }

  lemma SamePortSameGuest(guests: seq<Guest>, g: Guest, h: Guest)
    requires DistinctPorts(guests) && g in guests && h in guests && g != h
    ensures g.port != h.port
  {
    var i :| 0 <= i < |guests| && guests[i] == g;
    var j :| 0 <= j < |guests| && guests[j] == h;
  }

  predicate HasItem(r: seq<Item>, g: Guest) {
    exists x :: x in r && x.guest == g
  }

  /** The items of an assignment put in processing order. */
  ghost function InProcessingOrder(ordered: seq<Guest>, r: seq<Item>): (items: seq<Item>)
    requires forall g :: g in ordered ==> HasItem(r, g)
    ensures |items| == |ordered| && forall i :: 0 <= i < |items| ==> items[i].guest == ordered[i] && items[i] in r
  {
    if ordered == [] then []
    else
      assert ordered[0] in ordered && HasItem(r, ordered[0]);
      var x :| x in r && x.guest == ordered[0];
      [x] + InProcessingOrder(ordered[1..], r)
  }

  lemma OneItemEach(r: seq<Item>)
    requires PortsAscend(r)
    ensures forall x, y :: x in r && y in r && x.guest == y.guest ==> x == y
  {
  }

  lemma GoodIsFair(guests: seq<Guest>, hosts: seq<Host>, r: seq<Item>) returns (items: seq<Item>)
    requires DistinctPorts(guests) && GoodAssignment(guests, hosts, r)
    ensures Fair(SortGuests(guests), hosts, items)
    ensures forall x :: x in r <==> x in items
  {
    hide RankOf, Better, SortGuests, GuestLess, PortsAscend;
    var ordered := SortGuests(guests);
    SortSorts(guests);
    items := InProcessingOrder(ordered, r);
    OneItemEach(r);
    forall x | x in r
      ensures x in items
    {
      var i :| 0 <= i < |ordered| && ordered[i] == x.guest;
      assert items[i].guest == x.guest;
    }
    DistinctFromPorts(guests, items);
    forall i | 0 <= i < |items|
      ensures Unused(items, i, items[i].host)
    {
      forall j | 0 <= j < i
        ensures items[j].host.bdf != items[i].host.bdf
      {
        assert items[j].guest.port != items[i].guest.port;
      }
    }
    forall i, h | 0 <= i < |items| && h in hosts && Unused(items, i, h)
      ensures !Better(RankOf(ordered[i].role, h), RankOf(ordered[i].role, items[i].host))
    {
      UnusedIsNotTaken(ordered, items, r, i, h);
      assert items[i] in r;
    }
  }

  lemma {:induction false} WithoutShrinks(hosts: seq<Host>, h: Host)
    requires h in hosts
    ensures |Without(hosts, h.bdf)| < |hosts|
  {
    if hosts[0].bdf != h.bdf {
      WithoutShrinks(hosts[1..], h);
    }
  }

  lemma {:induction false} FairFits(ordered: seq<Guest>, hosts: seq<Host>, items: seq<Item>)
    requires Fair(ordered, hosts, items)
    ensures |ordered| <= |hosts|
    decreases |ordered|
  {
    hide RankOf, Better;
    if ordered != [] {
      FairTail(ordered, hosts, items);
      WithoutShrinks(hosts, items[0].host);
      FairFits(ordered[1..], Without(hosts, items[0].host.bdf), items[1..]);
    }
  }

  lemma ListingUnique(a: seq<Item>, b: seq<Item>)
    requires PortsAscend(a) && PortsAscend(b) && forall x :: x in a <==> x in b
    ensures a == b
  {
    var f, g := PortsOf(a), PortsOf(b);
    forall p
      ensures p in f <==> p in g
    {
      PortsMembers(a, p);
      PortsMembers(b, p);
    }
    AscendingUnique(f, g);
    forall i | 0 <= i < |a|
      ensures a[i] == b[i]
    {
      assert f[i] == g[i] && a[i] in b;
    }
  }

  function PortsOf(items: seq<Item>): seq<int> {
    seq(|items|, i requires 0 <= i < |items| => items[i].guest.port)
  }

  lemma PortsMembers(items: seq<Item>, p: int)
    ensures p in PortsOf(items) <==> exists x :: x in items && x.guest.port == p
  {
    if p in PortsOf(items) {
      var i :| 0 <= i < |items| && PortsOf(items)[i] == p;
      assert items[i] in items;
    }
    if x :| x in items && x.guest.port == p {
      var i :| 0 <= i < |items| && items[i] == x;
      assert PortsOf(items)[i] == p;
    }
  }

  /**
   With distinct ports and BDFs, the assignment is returned exactly when it is a good one; so there is at
   most one good assignment, and the operation fails only when there is none.
   */
  lemma AssignedExactly(guests: seq<Guest>, hosts: seq<Host>, r: seq<Item>)
    requires DistinctPorts(guests) && DistinctBdfs(hosts)
    ensures Assigned(guests, hosts) == Ok(r) <==> GoodAssignment(guests, hosts, r)
  {
    hide Greedy, Fair, GoodAssignment, SortGuests, Listing, ByPort;
    var ordered := SortGuests(guests);
    SortSorts(guests);
    assert |multiset(ordered)| == |multiset(guests)|;
    if Assigned(guests, hosts) == Ok(r) {
      var items := Greedy(ordered, hosts).value;
      GreedyIsFair(ordered, hosts, items);
      FairCovers(ordered, hosts, items);
      DistinctFromPorts(guests, items);
      ListingSorts(items);
      FairIsGood(guests, hosts, items, r);
    }
    if GoodAssignment(guests, hosts, r) {
      var items := GoodIsFair(guests, hosts, r);
      GoodAscends(guests, hosts, r);
      FairFits(ordered, hosts, items);
      FairCovers(ordered, hosts, items);
      GreedyIsFair(ordered, hosts, items);
      DistinctFromPorts(guests, items);
      ListingSorts(items);
      ListingUnique(Listing(ByPort(items)), r);
    }
  }

  lemma FairCovers(ordered: seq<Guest>, hosts: seq<Host>, items: seq<Item>)
    requires Fair(ordered, hosts, items)
    ensures |items| == |ordered| && forall i :: 0 <= i < |items| ==> items[i].guest == ordered[i]
  {
  }

  lemma GoodAscends(guests: seq<Guest>, hosts: seq<Host>, r: seq<Item>)
    requires GoodAssignment(guests, hosts, r)
    ensures PortsAscend(r)
  {
  }

  /**
   The pass is greedy, so it can fail although every guest could be served: the graphics guest takes the
   wide port by width, and the storage guest is left with one lane.
   */
  lemma GreedyIsIncomplete()
    ensures var gpu, nvme := Guest(1, 1, Gpu), Guest(2, 2, Nvme);
            var wide, narrow := Host("a", Gpu, 16), Host("b", Gpu, 1);
            Assigned([gpu, nvme], [wide, narrow]).Err?
            && Covers([gpu, nvme], [wide, narrow], [Item(narrow, gpu), Item(wide, nvme)])
  {
    var gpu, nvme := Guest(1, 1, Gpu), Guest(2, 2, Nvme);
    var wide, narrow := Host("a", Gpu, 16), Host("b", Gpu, 1);
    assert [gpu, nvme][..1] == [gpu];
    assert SortGuests([gpu]) == [gpu] by {
      assert [gpu][..0] == [];
    }
    assert [gpu][1..] == [];
    assert InsertGuest([gpu], nvme) == [gpu, nvme];
    assert SortGuests([gpu, nvme]) == [gpu, nvme];
    assert Choose(Gpu, [wide, narrow]) == wide by {
      assert [wide, narrow][1..] == [narrow];
    }
    assert Without([wide, narrow], "a") == [narrow] by {
      assert [wide, narrow][1..] == [narrow] && [narrow][1..] == [];
    }
    assert [gpu, nvme][1..] == [nvme];
    assert Greedy([nvme], [narrow]).Err?;
  }
}
