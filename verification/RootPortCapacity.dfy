/**
 When `assign_root_port_identities` of `01_generate_identity.py` succeeds, said of its inputs alone, and
 when an assignment exists at all: only graphics and storage guests refuse hosts, and graphics guests choose first.
 */
module RootPortCapacity {
  import opened Sets
  import opened RootPorts

  function Count(guests: seq<Guest>, role: Role): nat {
    if guests == [] then 0
    else Count(guests[..|guests| - 1], role) + if guests[|guests| - 1].role == role then 1 else 0
  }

  /** A graphics or storage guest wants a host of its own role or at least four lanes; others take any host. */
  predicate CanServe(guest: Role, h: Host) {
    match guest
    case Gpu => h.role == Gpu || h.width >= 4
    case Nvme => h.role == Nvme || h.width >= 4
    case _ => true
  }

  lemma ServingIsRanked(guest: Role, h: Host)
    ensures CanServe(guest, h) <==> RankOf(guest, h).bucket < UNUSABLE
  {
  }

  /** The hosts that a guest of the role can use. */
  function Usable(guest: Role, hosts: seq<Host>): set<Host> {
    set h | h in hosts && CanServe(guest, h)
  }

  /** The hosts that a guest of the role ranks above a given one. */
  function Ahead(guest: Role, hosts: seq<Host>, h: Host): set<Host> {
    set g | g in hosts && Better(RankOf(guest, g), RankOf(guest, h))
  }

  /** The `k` hosts that a guest of the role ranks best. */
  function Top(guest: Role, hosts: seq<Host>, k: nat): set<Host> {
    set h | h in hosts && |Ahead(guest, hosts, h)| < k
  }

  /** The guests fit the hosts in number, and the graphics guests leave enough hosts for the storage guests. */
  predicate Roomy(guests: seq<Guest>, hosts: seq<Host>) {
    && |guests| <= |hosts|
    && Count(guests, Gpu) <= |Usable(Gpu, hosts)|
    && Count(guests, Nvme) <= |Usable(Nvme, hosts) - Top(Gpu, hosts, Count(guests, Gpu))|
  }

  /** The guests fit the hosts in number, the demanding ones fit their hosts, each role alone and both together. */
  predicate Suffices(guests: seq<Guest>, hosts: seq<Host>) {
    && |guests| <= |hosts|
    && Count(guests, Gpu) <= |Usable(Gpu, hosts)| && Count(guests, Nvme) <= |Usable(Nvme, hosts)|
    && Count(guests, Gpu) + Count(guests, Nvme) <= |Usable(Gpu, hosts) + Usable(Nvme, hosts)|
  }

  predicate RolesRise(guests: seq<Guest>) {
    forall i, j :: 0 <= i < j < |guests| ==> RoleIndex(guests[i].role) <= RoleIndex(guests[j].role)
  }

  lemma {:induction false} CountFront(guests: seq<Guest>, role: Role)
    requires guests != []
    ensures Count(guests, role) == (if guests[0].role == role then 1 else 0) + Count(guests[1..], role)
  {
    if |guests| > 1 {
      var front := guests[..|guests| - 1];
      CountFront(front, role);
      assert guests[1..][..|guests| - 2] == front[1..];
    }
  }

  lemma {:induction false} NoneBelow(guests: seq<Guest>, role: Role)
    requires forall i :: 0 <= i < |guests| ==> guests[i].role != role
    ensures Count(guests, role) == 0
  {
    if guests != [] {
      NoneBelow(guests[..|guests| - 1], role);
    }
  }

  // ---- Taking one host away ------------------------------------------------------------------

  lemma UsableWithout(guest: Role, hosts: seq<Host>, h: Host)
    requires DistinctBdfs(hosts) && h in hosts
    ensures Usable(guest, Without(hosts, h.bdf)) == Usable(guest, hosts) - {h}
  {
    hide CanServe;
    OnlyOneGoes(hosts, h);
  }

  lemma OnlyOneGoes(hosts: seq<Host>, h: Host)
    requires DistinctBdfs(hosts) && h in hosts
    ensures forall g :: g in Without(hosts, h.bdf) <==> g in hosts && g != h
  {
    forall g | g in hosts && g.bdf == h.bdf
      ensures g == h
    {
      BdfIdentifies(hosts, g, h);
    }
  }

  lemma {:induction false} WithoutLosesOne(hosts: seq<Host>, h: Host)
    requires DistinctBdfs(hosts) && h in hosts
    ensures |Without(hosts, h.bdf)| == |hosts| - 1
  {
    var rest := hosts[1..];
    if hosts[0] == h {
      assert forall g :: g in rest ==> g.bdf != h.bdf;
      NothingGoes(rest, h.bdf);
    } else {
      assert h in rest;
      assert hosts[0].bdf != h.bdf;
      WithoutLosesOne(rest, h);
    }
  }

  lemma {:induction false} NothingGoes(hosts: seq<Host>, bdf: string)
    requires forall g :: g in hosts ==> g.bdf != bdf
    ensures |Without(hosts, bdf)| == |hosts|
  {
    if hosts != [] {
      NothingGoes(hosts[1..], bdf);
    }
  }

  lemma BestIsAheadOfAll(guest: Role, hosts: seq<Host>, h: Host)
    requires DistinctBdfs(hosts) && h in hosts
    ensures var best := Choose(guest, hosts);
            && (h != best ==> Better(RankOf(guest, best), RankOf(guest, h)))
            && Ahead(guest, hosts, best) == {}
  {
    hide RankOf, Better, Choose;
    var best := Choose(guest, hosts);
    forall g | g in hosts
      ensures !Better(RankOf(guest, g), RankOf(guest, best))
    {
      ChosenIsBest(guest, hosts, g);
    }
    BetterTotal(RankOf(guest, best), RankOf(guest, h));
    RankCarriesBdf(guest, best);
    RankCarriesBdf(guest, h);
    if h != best && RankOf(guest, best) == RankOf(guest, h) {
      BdfIdentifies(hosts, best, h);
    }
  }

  /** Once the best host is taken, every other host has one host fewer ahead of it. */
  lemma AheadWithoutBest(guest: Role, hosts: seq<Host>, h: Host)
    requires DistinctBdfs(hosts) && h in hosts && h != Choose(guest, hosts)
    ensures |Ahead(guest, Without(hosts, Choose(guest, hosts).bdf), h)| == |Ahead(guest, hosts, h)| - 1
  {
    hide RankOf, Better, Choose;
    var best := Choose(guest, hosts);
    OnlyOneGoes(hosts, best);
    BestIsAheadOfAll(guest, hosts, h);
    assert best in Ahead(guest, hosts, h);
    AheadLoses(guest, hosts, Without(hosts, best.bdf), best, h);
    LoseOne(Ahead(guest, hosts, h), best);
  }

  lemma AheadLoses(guest: Role, hosts: seq<Host>, left: seq<Host>, best: Host, h: Host)
    requires forall g :: g in left <==> g in hosts && g != best
    ensures Ahead(guest, left, h) == Ahead(guest, hosts, h) - {best}
  {
    hide RankOf, Better;
  }

  /** The best `k` hosts are the best one and the best `k - 1` of the others. */
  lemma TopStep(guest: Role, hosts: seq<Host>, k: nat)
    requires DistinctBdfs(hosts) && hosts != [] && k > 0
    ensures var best := Choose(guest, hosts);
            best in Top(guest, hosts, k) && Top(guest, Without(hosts, best.bdf), k - 1) == Top(guest, hosts, k) - {best}
  {
    hide RankOf, Better, Choose, Ahead;
    var best := Choose(guest, hosts);
    BestIsAheadOfAll(guest, hosts, best);
    OnlyOneGoes(hosts, best);
    forall h | h in hosts && h != best
      ensures h in Top(guest, Without(hosts, best.bdf), k - 1) <==> h in Top(guest, hosts, k)
    {
      AheadWithoutBest(guest, hosts, h);
    }
  }

  lemma NoTop(guest: Role, hosts: seq<Host>)
    ensures Top(guest, hosts, 0) == {}
  {
    hide Ahead;
  }

  /** The best hosts are as many as asked for, and all usable when enough are. */
  lemma {:induction false} TopSize(guest: Role, hosts: seq<Host>, k: nat)
    requires DistinctBdfs(hosts) && k <= |Usable(guest, hosts)|
    ensures |Top(guest, hosts, k)| == k && Top(guest, hosts, k) <= Usable(guest, hosts)
    decreases k
  {
    hide RankOf, Better, Choose, CanServe, Top, Usable;
    if k == 0 {
      NoTop(guest, hosts);
    } else {
      UsableMeansHosts(guest, hosts);
      var best := Choose(guest, hosts);
      BestIsUsable(guest, hosts);
      UsableWithout(guest, hosts, best);
      WithoutKeepsDistinct(hosts, best.bdf);
      var left := Without(hosts, best.bdf);
      TopSize(guest, left, k - 1);
      TopStep(guest, hosts, k);
      assert Top(guest, hosts, k) == Top(guest, left, k - 1) + {best};
      assert Usable(guest, left) <= Usable(guest, hosts) && best in Usable(guest, hosts);
    }
  }

  lemma UsableMeansHosts(guest: Role, hosts: seq<Host>)
    ensures Usable(guest, hosts) != {} ==> hosts != []
  {
  }

  /** If any host is usable, the best one is. */
  lemma BestIsUsable(guest: Role, hosts: seq<Host>)
    requires hosts != []
    ensures Choose(guest, hosts) in Usable(guest, hosts) <==> Usable(guest, hosts) != {}
    ensures Stuck(guest, hosts) <==> Usable(guest, hosts) == {}
  {
    hide RankOf, Choose, CanServe;
    var best := Choose(guest, hosts);
    ServingIsRanked(guest, best);
    if h :| h in Usable(guest, hosts) {
      ServingIsRanked(guest, h);
      ChosenIsBest(guest, hosts, h);
    }
  }

  // ---- When the pass succeeds ----------------------------------------------------------------

  lemma GreedyStep(ordered: seq<Guest>, hosts: seq<Host>)
    requires ordered != [] && hosts != []
    ensures var role := ordered[0].role;
            Greedy(ordered, hosts).Ok? <==>
              Usable(role, hosts) != {} && Greedy(ordered[1..], Without(hosts, Choose(role, hosts).bdf)).Ok?
  {
    hide RankOf, Choose, CanServe;
    BestIsUsable(ordered[0].role, hosts);
  }

  lemma GraphicsStep(hosts: seq<Host>, best: Host, k: nat)
    requires DistinctBdfs(hosts) && hosts != [] && k > 0 && best == Choose(Gpu, hosts)
    ensures var left := Without(hosts, best.bdf);
      Usable(Nvme, left) - Top(Gpu, left, k - 1) == Usable(Nvme, hosts) - Top(Gpu, hosts, k)
  {
    hide RankOf, Better, Choose, CanServe, Top, Usable;
    UsableWithout(Nvme, hosts, best);
    TopStep(Gpu, hosts, k);
  }

  lemma NoTopLeft(hosts: seq<Host>)
    ensures Usable(Nvme, hosts) - Top(Gpu, hosts, 0) == Usable(Nvme, hosts)
  {
    hide Usable;
    NoTop(Gpu, hosts);
  }

  /** The counts that decide success, after the first guest took the best host. */
  lemma RoomyStep(ordered: seq<Guest>, hosts: seq<Host>)
    requires RolesRise(ordered) && DistinctBdfs(hosts) && ordered != [] && hosts != []
    ensures var role := ordered[0].role;
            Roomy(ordered, hosts)
            <==> Usable(role, hosts) != {} && Roomy(ordered[1..], Without(hosts, Choose(role, hosts).bdf))
  {
    hide RankOf, Better, Choose, CanServe, Top, Count, Usable, RolesRise, DistinctBdfs;
    var role := ordered[0].role;
    var best := Choose(role, hosts);
    var left := Without(hosts, best.bdf);
    FirstCounts(ordered);
    HostCounts(hosts, best);
    BestIsUsable(role, hosts);
    NoTopLeft(hosts);
    NoTopLeft(left);
    if role == Gpu {
      GraphicsStep(hosts, best, Count(ordered, Gpu));
    } else if role != Nvme {
      AnyHostServes(role, hosts);
    }
  }

  lemma AfterGraphics(ordered: seq<Guest>)
    requires RolesRise(ordered) && ordered != [] && ordered[0].role != Gpu
    ensures Count(ordered, Gpu) == 0
  {
    forall i | 0 <= i < |ordered|
      ensures ordered[i].role != Gpu
    {
      assert i > 0 ==> RoleIndex(ordered[0].role) <= RoleIndex(ordered[i].role);
    }
    NoneBelow(ordered, Gpu);
  }

  lemma AfterStorage(ordered: seq<Guest>)
    requires RolesRise(ordered) && ordered != [] && ordered[0].role != Gpu && ordered[0].role != Nvme
    ensures Count(ordered, Nvme) == 0
  {
    forall i | 0 <= i < |ordered|
      ensures ordered[i].role != Nvme
    {
      assert i > 0 ==> RoleIndex(ordered[0].role) <= RoleIndex(ordered[i].role);
    }
    NoneBelow(ordered, Nvme);
  }

  lemma AnyHostServes(role: Role, hosts: seq<Host>)
    requires role != Gpu && role != Nvme && hosts != []
    ensures Usable(role, hosts) != {}
  {
    assert hosts[0] in Usable(role, hosts);
  }

  /** On guests in processing order the pass succeeds exactly when there is room. */
  lemma {:induction false} GreedySucceeds(ordered: seq<Guest>, hosts: seq<Host>)
    requires RolesRise(ordered) && DistinctBdfs(hosts)
    ensures Greedy(ordered, hosts).Ok? <==> Roomy(ordered, hosts)
    decreases |ordered|
  {
    hide RankOf, Better, Choose, Top, Usable;
    if ordered == [] {
      NoTop(Gpu, hosts);
    } else if hosts != [] {
      var left := Without(hosts, Choose(ordered[0].role, hosts).bdf);
      GreedyStep(ordered, hosts);
      RoomyStep(ordered, hosts);
      WithoutKeepsDistinct(hosts, Choose(ordered[0].role, hosts).bdf);
      GreedySucceeds(ordered[1..], left);
    }
  }

  // ---- Unsorted guests -----------------------------------------------------------------------

  lemma {:induction false} CountInsert(s: seq<Guest>, g: Guest, role: Role)
    ensures Count(InsertGuest(s, g), role) == Count(s, role) + if g.role == role then 1 else 0
    ensures |InsertGuest(s, g)| == |s| + 1
  {
    hide GuestLess, Count;
    CountFront(InsertGuest(s, g), role);
    if s == [] || GuestLess(g, s[0]) {
      assert ([g] + s)[1..] == s;
    } else {
      CountInsert(s[1..], g, role);
      CountFront(s, role);
      assert ([s[0]] + InsertGuest(s[1..], g))[1..] == InsertGuest(s[1..], g);
    }
  }

  lemma {:induction false} CountSort(guests: seq<Guest>, role: Role)
    ensures Count(SortGuests(guests), role) == Count(guests, role) && |SortGuests(guests)| == |guests|
  {
    hide InsertGuest;
    if guests != [] {
      CountSort(guests[..|guests| - 1], role);
      CountInsert(SortGuests(guests[..|guests| - 1]), guests[|guests| - 1], role);
    }
  }

  lemma SortedRises(guests: seq<Guest>)
    requires DistinctPorts(guests)
    ensures RolesRise(SortGuests(guests))
  {
    hide SortGuests;
    SortSorts(guests);
    var s := SortGuests(guests);
    forall i, j | 0 <= i < j < |s|
      ensures RoleIndex(s[i].role) <= RoleIndex(s[j].role)
    {
      assert GuestLess(s[i], s[j]);
    }
  }

  /**
   With distinct ports and BDFs the operation succeeds exactly when the guests are no more than the hosts,
   the graphics guests no more than the hosts they can use, and the storage guests no more than the hosts they
   can use outside the best ones for graphics.
   */
  lemma SucceedsExactly(guests: seq<Guest>, hosts: seq<Host>)
    requires DistinctPorts(guests) && DistinctBdfs(hosts)
    ensures Assigned(guests, hosts).Ok? <==> Roomy(guests, hosts)
  {
    hide Greedy, SortGuests, Listing, ByPort, Usable, Top, Count;
    var ordered := SortGuests(guests);
    CountSort(guests, Gpu);
    CountSort(guests, Nvme);
    SortedRises(guests);
    GreedySucceeds(ordered, hosts);
  }

  // ---- When an assignment exists -------------------------------------------------------------

  /** Every guest is given a host that it can use, and no two the same. */
  predicate Serves(guests: seq<Guest>, hosts: seq<Host>, hostOf: map<Guest, Host>) {
    && (forall g :: g in guests ==> g in hostOf && hostOf[g] in hosts && CanServe(g.role, hostOf[g]))
    && (forall g, h :: g in guests && h in guests && g != h ==> hostOf[g].bdf != hostOf[h].bdf)
  }

  ghost predicate Servable(guests: seq<Guest>, hosts: seq<Host>) {
    exists hostOf :: Serves(guests, hosts, hostOf)
  }

  ghost predicate Coverable(ordered: seq<Guest>, hosts: seq<Host>) {
    exists items :: Covers(ordered, hosts, items)
  }

  lemma ServedIsCovered(guests: seq<Guest>, ordered: seq<Guest>, hosts: seq<Host>, hostOf: map<Guest, Host>)
    requires Serves(guests, hosts, hostOf) && DistinctPorts(guests) && multiset(ordered) == multiset(guests)
    ensures Coverable(ordered, hosts)
  {
    hide CanServe, RankOf;
    SameMembers(ordered, guests);
    NoGuestTwice(ordered, guests);
    var items := seq(|ordered|, i requires 0 <= i < |ordered| => Item(hostOf[ordered[i]], ordered[i]));
    forall i | 0 <= i < |items|
      ensures Unused(items, i, items[i].host) && RankOf(ordered[i].role, items[i].host).bucket < UNUSABLE
    {
      ServingIsRanked(ordered[i].role, items[i].host);
    }
    assert Covers(ordered, hosts, items);
  }

  lemma CoveredIsServed(guests: seq<Guest>, ordered: seq<Guest>, hosts: seq<Host>, items: seq<Item>)
    requires Covers(ordered, hosts, items) && DistinctPorts(guests) && multiset(ordered) == multiset(guests)
    ensures Servable(guests, hosts)
  {
    hide CanServe, RankOf, Unused;
    SameMembers(ordered, guests);
    NoGuestTwice(ordered, guests);
    var hostOf := map i | 0 <= i < |ordered| :: ordered[i] := items[i].host;
    forall i | 0 <= i < |ordered|
      ensures CanServe(ordered[i].role, hostOf[ordered[i]]) && hostOf[ordered[i]] == items[i].host
    {
      ServingIsRanked(ordered[i].role, items[i].host);
    }
    forall g, h | g in guests && h in guests && g != h
      ensures hostOf[g].bdf != hostOf[h].bdf
    {
      var i :| 0 <= i < |ordered| && ordered[i] == g;
      var j :| 0 <= j < |ordered| && ordered[j] == h;
      HostsDiffer(items, i, j);
    }
    assert Serves(guests, hosts, hostOf);
  }

  lemma HostsDiffer(items: seq<Item>, i: nat, j: nat)
    requires i < |items| && j < |items| && i != j
    requires forall k :: 0 <= k < |items| ==> Unused(items, k, items[k].host)
    ensures items[i].host.bdf != items[j].host.bdf
  {
    assert Unused(items, i, items[i].host) && Unused(items, j, items[j].host);
  }

  lemma NoGuestTwice(ordered: seq<Guest>, guests: seq<Guest>)
    requires DistinctPorts(guests) && multiset(ordered) == multiset(guests)
    ensures forall i, j :: 0 <= i < j < |ordered| ==> ordered[i] != ordered[j]
  {
    forall i, j | 0 <= i < j < |ordered|
      ensures ordered[i] != ordered[j]
    {
      if ordered[i] == ordered[j] {
        TwiceCounts(ordered, i, j);
        CountsTwice(guests, ordered[i]);
      }
    }
  }

  lemma TwiceCounts<T>(s: seq<T>, i: nat, j: nat)
    requires i < j < |s| && s[i] == s[j]
    ensures multiset(s)[s[i]] >= 2
  {
    assert s == s[..i] + [s[i]] + s[i + 1..j] + [s[j]] + s[j + 1..];
  }

  lemma CountsTwice<T>(s: seq<T>, x: T)
    requires multiset(s)[x] >= 2
    ensures exists i, j :: 0 <= i < j < |s| && s[i] == s[j] == x
  {
    var j :| 0 <= j < |s| && s[j] == x;
    var rest := s[..j] + s[j + 1..];
    assert s == s[..j] + [s[j]] + s[j + 1..];
    assert multiset(rest)[x] >= 1;
    assert x in rest;
    var i :| 0 <= i < |rest| && rest[i] == x;
    if i < j {
      assert s[i] == s[j] == x;
    } else {
      assert s[j] == s[i + 1] == x;
    }
  }

  lemma CoversTail(guests: seq<Guest>, hosts: seq<Host>, items: seq<Item>)
    requires guests != [] && Covers(guests, hosts, items)
    ensures items != [] && items[0].host in hosts && CanServe(guests[0].role, items[0].host)
    ensures Covers(guests[1..], Without(hosts, items[0].host.bdf), items[1..])
  {
    hide RankOf, CanServe;
    var rest, left := items[1..], Without(hosts, items[0].host.bdf);
    ServingIsRanked(guests[0].role, items[0].host);
    forall i | 0 <= i < |rest|
      ensures rest[i].host in left && Unused(rest, i, rest[i].host)
    {
      assert Unused(items, i + 1, items[i + 1].host);
      assert items[0].host.bdf != items[i + 1].host.bdf;
      forall j | 0 <= j < i
        ensures rest[j].host.bdf != rest[i].host.bdf
      {
        assert rest[j] == items[j + 1];
      }
    }
  }

  /** Whatever usable host the first guest takes, enough for the others is enough for all. */
  lemma SufficesBefore(guests: seq<Guest>, hosts: seq<Host>, h: Host)
    requires RolesRise(guests) && guests != [] && DistinctBdfs(hosts) && h in hosts && CanServe(guests[0].role, h)
    requires Suffices(guests[1..], Without(hosts, h.bdf))
    ensures Suffices(guests, hosts)
  {
    hide CanServe, Count;
    FirstCounts(guests);
    WithoutLosesOne(hosts, h);
    UsableWithout(Gpu, hosts, h);
    UsableWithout(Nvme, hosts, h);
    UnionLoses(Usable(Gpu, hosts), Usable(Nvme, hosts), h);
  }

  lemma FirstCounts(guests: seq<Guest>)
    requires RolesRise(guests) && guests != []
    ensures Count(guests, Gpu) == (if guests[0].role == Gpu then 1 else 0) + Count(guests[1..], Gpu)
    ensures Count(guests, Nvme) == (if guests[0].role == Nvme then 1 else 0) + Count(guests[1..], Nvme)
    ensures guests[0].role != Gpu ==> Count(guests, Gpu) == 0
    ensures guests[0].role != Gpu && guests[0].role != Nvme ==> Count(guests, Nvme) == 0
  {
    hide Count, RolesRise;
    CountFront(guests, Gpu);
    CountFront(guests, Nvme);
    if guests[0].role != Gpu {
      AfterGraphics(guests);
      if guests[0].role != Nvme {
        AfterStorage(guests);
      }
    }
  }

  predicate Lose(x: bool, before: nat, after: nat) {
    before == after + if x then 1 else 0
  }

  /** The counts of the hosts before and after one host goes. */
  lemma HostCounts(hosts: seq<Host>, h: Host)
    requires DistinctBdfs(hosts) && h in hosts
    ensures var gpu, nvme, left := Usable(Gpu, hosts), Usable(Nvme, hosts), Without(hosts, h.bdf);
            && |left| == |hosts| - 1
            && Lose(h in gpu, |gpu|, |Usable(Gpu, left)|)
            && Lose(h in nvme, |nvme|, |Usable(Nvme, left)|)
            && Lose(h in gpu || h in nvme, |gpu + nvme|, |Usable(Gpu, left) + Usable(Nvme, left)|)
  {
    hide CanServe, Usable;
    var gpu, nvme := Usable(Gpu, hosts), Usable(Nvme, hosts);
    WithoutLosesOne(hosts, h);
    UsableWithout(Gpu, hosts, h);
    UsableWithout(Nvme, hosts, h);
    UnionLoses(gpu, nvme, h);
    LoseOne(gpu, h);
    LoseOne(nvme, h);
    LoseOne(gpu + nvme, h);
  }

  /** The host a first guest should take: one no storage guest wants, when there is one. */
  lemma SparingHost(role: Role, hosts: seq<Host>) returns (h: Host)
    requires hosts != [] && Usable(role, hosts) != {}
    ensures h in hosts && CanServe(role, h)
    ensures role == Gpu && h in Usable(Nvme, hosts) ==> Usable(Gpu, hosts) + Usable(Nvme, hosts) == Usable(Nvme, hosts)
  {
    hide CanServe;
    var gpu, nvme := Usable(Gpu, hosts), Usable(Nvme, hosts);
    if role == Gpu && gpu - nvme != {} {
      h :| h in gpu - nvme;
    } else {
      h :| h in Usable(role, hosts);
      if role == Gpu {
        NothingOutside(gpu, nvme);
        assert gpu + nvme == nvme;
      }
    }
  }

  /** After the sparing choice there is enough for the other guests. */
  lemma SufficesAfter(guests: seq<Guest>, hosts: seq<Host>) returns (h: Host)
    requires RolesRise(guests) && guests != [] && DistinctBdfs(hosts) && Suffices(guests, hosts)
    ensures h in hosts && CanServe(guests[0].role, h) && Suffices(guests[1..], Without(hosts, h.bdf))
  {
    hide CanServe, Count, Usable, DistinctBdfs, RolesRise;
    FirstCounts(guests);
    FirstIsServed(guests, hosts);
    h := SparingHost(guests[0].role, hosts);
    HostCounts(hosts, h);
    ServedIsUsable(guests[0].role, hosts, h);
    SubsetSize(Usable(Nvme, hosts), Usable(Gpu, hosts) + Usable(Nvme, hosts));
  }

  lemma ServedIsUsable(role: Role, hosts: seq<Host>, h: Host)
    requires h in hosts && CanServe(role, h)
    ensures h in Usable(role, hosts)
  {
    hide CanServe;
  }

  lemma FirstIsServed(guests: seq<Guest>, hosts: seq<Host>)
    requires RolesRise(guests) && guests != [] && Suffices(guests, hosts)
    ensures hosts != [] && Usable(guests[0].role, hosts) != {}
  {
    hide CanServe, Count;
    var role := guests[0].role;
    FirstCounts(guests);
    if role != Gpu && role != Nvme {
      AnyServes(role, hosts[0]);
      ServedIsUsable(role, hosts, hosts[0]);
    }
  }

  lemma AnyServes(role: Role, h: Host)
    requires role != Gpu && role != Nvme
    ensures CanServe(role, h)
  {
  }

  /** Every guest in processing order can be given a usable host of its own exactly when the counts suffice. */
  lemma {:induction false} CoverableExactly(guests: seq<Guest>, hosts: seq<Host>)
    requires RolesRise(guests) && DistinctBdfs(hosts)
    ensures Coverable(guests, hosts) <==> Suffices(guests, hosts)
    decreases |guests|
  {
    hide CanServe, Suffices, Covers, RankOf, RolesRise;
    if guests == [] {
      NobodyToServe(hosts);
    } else {
      TailRises(guests);
      if Coverable(guests, hosts) {
        var items: seq<Item> :| Covers(guests, hosts, items);
        CoversTail(guests, hosts, items);
        WithoutKeepsDistinct(hosts, items[0].host.bdf);
        CoverableExactly(guests[1..], Without(hosts, items[0].host.bdf));
        SufficesBefore(guests, hosts, items[0].host);
      }
      if Suffices(guests, hosts) {
        var h := SufficesAfter(guests, hosts);
        WithoutKeepsDistinct(hosts, h.bdf);
        CoverableExactly(guests[1..], Without(hosts, h.bdf));
        var rest: seq<Item> :| Covers(guests[1..], Without(hosts, h.bdf), rest);
        ServingIsRanked(guests[0].role, h);
        CoversCons(guests, hosts, Item(h, guests[0]), rest);
      }
    }
  }

  lemma TailRises(guests: seq<Guest>)
    requires RolesRise(guests) && guests != []
    ensures RolesRise(guests[1..])
  {
  }

  lemma NobodyToServe(hosts: seq<Host>)
    ensures Coverable([], hosts) && Suffices([], hosts)
  {
    assert Covers([], hosts, []);
  }

  /** Every guest can be given a usable host of its own exactly when the counts suffice. */
  lemma AssignmentExistsExactly(guests: seq<Guest>, hosts: seq<Host>)
    requires DistinctPorts(guests) && DistinctBdfs(hosts)
    ensures Servable(guests, hosts) <==> Suffices(guests, hosts)
  {
    hide SortGuests, Usable, Count, Serves, Covers;
    var ordered := SortGuests(guests);
    SortSorts(guests);
    CountSort(guests, Gpu);
    CountSort(guests, Nvme);
    SortedRises(guests);
    CoverableExactly(ordered, hosts);
    if Servable(guests, hosts) {
      var hostOf :| Serves(guests, hosts, hostOf);
      ServedIsCovered(guests, ordered, hosts, hostOf);
    }
    if Coverable(ordered, hosts) {
      var items :| Covers(ordered, hosts, items);
      CoveredIsServed(guests, ordered, hosts, items);
    }
  }

  predicate WideGraphics(hosts: seq<Host>) {
    forall h :: h in hosts && h.role == Gpu ==> h.width >= 4
  }

  /** Where every graphics host has at least four lanes the greedy choice loses nothing. */
  lemma NothingLostWhenWide(guests: seq<Guest>, hosts: seq<Host>)
    requires DistinctPorts(guests) && DistinctBdfs(hosts) && WideGraphics(hosts)
    ensures Assigned(guests, hosts).Ok? <==> Servable(guests, hosts)
  {
    hide Count, Servable, Assigned, Top;
    SucceedsExactly(guests, hosts);
    AssignmentExistsExactly(guests, hosts);
    var gpu, nvme, k := Usable(Gpu, hosts), Usable(Nvme, hosts), Count(guests, Gpu);
    assert gpu <= nvme;
    assert gpu + nvme == nvme;
    if k <= |gpu| {
      TopSize(Gpu, hosts, k);
      SubsetLeaves(nvme, Top(Gpu, hosts, k));
    }
  }

  /** Room for the greedy pass is enough for some assignment, not the other way round. */
  lemma RoomyIsEnough(guests: seq<Guest>, hosts: seq<Host>)
    requires DistinctBdfs(hosts) && Roomy(guests, hosts)
    ensures Suffices(guests, hosts)
  {
    hide Count, Top, CanServe;
    var gpu, nvme, k := Usable(Gpu, hosts), Usable(Nvme, hosts), Count(guests, Gpu);
    TopSize(Gpu, hosts, k);
    var top := Top(Gpu, hosts, k);
    SubsetSize(nvme - top, nvme);
    SubsetSize(top + (nvme - top), gpu + nvme);
  }
}
