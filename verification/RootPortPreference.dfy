/**
 What the ranking of `host_root_port_rank` in `01_generate_identity.py` prefers, said of roles, lanes and addresses
 alone, and the assignment of root ports in these terms.
 */
module RootPortPreference {
  import opened Outcomes
  import opened RootPorts
  import opened RootPortCapacity

  /** `ROOT_PORT_ROLE_ORDER`. */
  const ROLE_ORDER: seq<Role> := [Gpu, Nvme, Nic, Usb, Audio, Other, Empty]

  /** Guests are served by role, and by port within a role. */
  predicate ServedBefore(g: Guest, h: Guest) {
    || (exists i, j :: 0 <= i < j < |ROLE_ORDER| && ROLE_ORDER[i] == g.role && ROLE_ORDER[j] == h.role)
    || (g.role == h.role && g.port < h.port)
  }

  /** Alphabetical order, by the first character that differs or the one text that ends first. */
  predicate Precedes(a: string, b: string) {
    exists k :: 0 <= k <= |a| && k <= |b| && a[..k] == b[..k]
                && ((k == |a| && k < |b|) || (k < |a| && k < |b| && a[k] < b[k]))
  }

  /** How many lanes a host has too many or too few for storage. */
  function Off(h: Host): int {
    if h.width >= 4 then h.width - 4 else 4 - h.width
  }

  /**
   A graphics guest prefers graphics hosts, then more lanes. A storage guest prefers storage hosts, then hosts of at
   least four lanes, then those nearest to four. A network guest prefers network hosts, then empty ones of at most
   one lane, then fewer lanes; an empty port prefers empty hosts, then fewer lanes; any other guest prefers hosts of
   its own role, then empty ones, then fewer lanes. What is still equal goes by the address.
   */
  predicate Prefers(guest: Role, a: Host, b: Host) {
    if (a.role == guest) != (b.role == guest) then a.role == guest
    else if guest == Gpu then a.width > b.width || (a.width == b.width && Precedes(a.bdf, b.bdf))
    else if guest == Nvme then
      if CanServe(Nvme, a) != CanServe(Nvme, b) then CanServe(Nvme, a)
      else Off(a) < Off(b) || (Off(a) == Off(b) && Precedes(a.bdf, b.bdf))
    else if guest == Nic && (a.role == Empty && a.width <= 1) != (b.role == Empty && b.width <= 1) && a.role != Nic then
      a.role == Empty && a.width <= 1
    else if guest != Nic && guest != Empty && (a.role == Empty) != (b.role == Empty) then a.role == Empty
    else a.width < b.width || (a.width == b.width && Precedes(a.bdf, b.bdf))
  }

  lemma {:induction false} PrecedesMeans(a: string, b: string)
    ensures Precedes(a, b) <==> TextLess(a, b)
  {
    if a != "" && b != "" {
      PrecedesMeans(a[1..], b[1..]);
      PrecedesTail(a, b);
    } else if b != "" {
      assert a[..0] == b[..0];
    }
  }

  lemma PrecedesTail(a: string, b: string)
    requires a != "" && b != ""
    ensures Precedes(a, b) <==> a[0] < b[0] || (a[0] == b[0] && Precedes(a[1..], b[1..]))
  {
    var s, t := a[1..], b[1..];
    if Precedes(a, b) {
      var k :| 0 <= k <= |a| && k <= |b| && a[..k] == b[..k]
               && ((k == |a| && k < |b|) || (k < |a| && k < |b| && a[k] < b[k]));
      if k > 0 {
        assert a[0] == a[..k][0] == b[..k][0] == b[0];
        assert s[..k - 1] == a[..k][1..] && t[..k - 1] == b[..k][1..];
      }
    }
    if a[0] < b[0] {
      assert a[..0] == b[..0];
    }
    if a[0] == b[0] && Precedes(s, t) {
      var k :| 0 <= k <= |s| && k <= |t| && s[..k] == t[..k]
               && ((k == |s| && k < |t|) || (k < |s| && k < |t| && s[k] < t[k]));
      assert a[..k + 1] == [a[0]] + s[..k] && b[..k + 1] == [b[0]] + t[..k];
    }
  }

  /** The ranks order hosts by that preference. */
  lemma RankMeans(guest: Role, a: Host, b: Host)
    ensures Better(RankOf(guest, a), RankOf(guest, b)) <==> Prefers(guest, a, b)
    ensures RankOf(guest, a).bucket < UNUSABLE <==> CanServe(guest, a)
  {
    hide TextLess, Precedes;
    PrecedesMeans(a.bdf, b.bdf);
  }

  lemma ServedMeans(g: Guest, h: Guest)
    ensures GuestLess(g, h) <==> ServedBefore(g, h)
  {
    assert forall role :: 0 <= RoleIndex(role) < 7 && ROLE_ORDER[RoleIndex(role)] == role;
    assert forall i :: 0 <= i < 7 ==> RoleIndex(ROLE_ORDER[i]) == i;
  }

  /** No guest that was served earlier has the host. */
  predicate LeftFor(r: seq<Item>, g: Guest, h: Host) {
    forall y :: y in r && y.host.bdf == h.bdf ==> !ServedBefore(y.guest, g)
  }

  /**
   Every guest has a host of its own that it can use, and prefers no host that was left for it.
   */
  predicate WellServed(guests: seq<Guest>, hosts: seq<Host>, r: seq<Item>) {
    && |r| == |guests| && (forall i, j :: 0 <= i < j < |r| ==> r[i].guest.port < r[j].guest.port)
    && (forall g :: g in guests ==> exists i :: 0 <= i < |r| && r[i].guest == g)
    && (forall x :: x in r ==> x.guest in guests && x.host in hosts && CanServe(x.guest.role, x.host))
    && (forall x, y :: x in r && y in r && x != y ==> x.host.bdf != y.host.bdf)
    && (forall x, h :: x in r && h in hosts && LeftFor(r, x.guest, h) ==> !Prefers(x.guest.role, h, x.host))
  }

  lemma LeftMeans(r: seq<Item>, g: Guest, h: Host)
    ensures LeftFor(r, g, h) <==> !TakenBefore(r, g, h)
  {
    hide GuestLess, ServedBefore;
    forall y | y in r
      ensures GuestLess(y.guest, g) <==> ServedBefore(y.guest, g)
    {
      ServedMeans(y.guest, g);
    }
  }

  lemma GoodMeans(guests: seq<Guest>, hosts: seq<Host>, r: seq<Item>)
    ensures GoodAssignment(guests, hosts, r) <==> WellServed(guests, hosts, r)
  {
    hide RankOf, Better, Prefers, CanServe, LeftFor, TakenBefore;
    forall x | x in r
      ensures RankOf(x.guest.role, x.host).bucket < UNUSABLE <==> CanServe(x.guest.role, x.host)
    {
      RankMeans(x.guest.role, x.host, x.host);
    }
    forall x, h | x in r && h in hosts
      ensures LeftFor(r, x.guest, h) <==> !TakenBefore(r, x.guest, h)
      ensures Better(RankOf(x.guest.role, h), RankOf(x.guest.role, x.host)) <==> Prefers(x.guest.role, h, x.host)
    {
      LeftMeans(r, x.guest, h);
      RankMeans(x.guest.role, h, x.host);
    }
  }

  /** With distinct ports and addresses the operation returns an assignment exactly when it serves every guest so. */
  lemma AssignedMeans(guests: seq<Guest>, hosts: seq<Host>, r: seq<Item>)
    requires DistinctPorts(guests) && DistinctBdfs(hosts)
    ensures Assigned(guests, hosts) == Ok(r) <==> WellServed(guests, hosts, r)
  {
    hide Assigned, GoodAssignment, WellServed;
    AssignedExactly(guests, hosts, r);
    GoodMeans(guests, hosts, r);
  }
}
