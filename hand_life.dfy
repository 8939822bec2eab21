/** The end of a hand's life in hands.c: destroying (or, for the permanent
    hand, hiding) a hand, and unmapping every hand of every port. */
module HandLife {

  import opened Hands
  import opened Alarms
  import opened Timeval
  import opened HandQueries

  // ---------------------------------------------------------------------
  // Unlinking

  /** s with x unlinked: every occurrence of x removed, the rest in order. */
  function Without(s: seq<Hand>, x: Hand): seq<Hand>
    decreases |s|
  {
    if s == [] then []
    else (if s[0] == x then [] else [s[0]]) + Without(s[1..], x)
  }

  /** Exactly the elements other than x survive the unlinking. */
  lemma {:induction false} WithoutMembers(s: seq<Hand>, x: Hand)
    ensures |Without(s, x)| <= |s|
    ensures forall h :: h in Without(s, x) ==> h in s && h != x
    ensures forall h :: h in s && h != x ==> h in Without(s, x)
    decreases |s|
  {
    if s != [] {
      WithoutMembers(s[1..], x);
      assert forall h :: h in s <==> h == s[0] || h in s[1..];
    }
  }

  /** The tail of a list without repetition has none either, and does not
      contain the head. */
  lemma UniqueTail(s: seq<Hand>)
    requires Unique(s) && s != []
    ensures Unique(s[1..]) && s[0] !in s[1..]
  {
    forall a, b | 0 <= a < b < |s[1..]| ensures s[1..][a] != s[1..][b] {
      assert s[1..][a] == s[a + 1] && s[1..][b] == s[b + 1];
    }
    forall j | 0 <= j < |s[1..]| ensures s[1..][j] != s[0] {
      assert s[1..][j] == s[j + 1];
    }
  }

  /** In a list without repetition, unlinking the element at index i leaves
      the elements before it and the elements after it, in their order. */
  lemma {:induction false} WithoutAt(s: seq<Hand>, i: int)
    requires Unique(s) && 0 <= i < |s|
    ensures Without(s, s[i]) == s[..i] + s[i + 1..]
    decreases |s|
  {
    UniqueTail(s);
    var t := s[1..];
    if i == 0 {
      WithoutAbsent(t, s[0]);
    } else {
      WithoutAt(t, i - 1);
      assert t[i - 1] == s[i] && t[..i - 1] == s[1..i] && t[i..] == s[i + 1..];
      assert [s[0]] + s[1..i] == s[..i];
    }
  }

  /** Unlinking an element that is not in the list changes nothing. */
  lemma {:induction false} WithoutAbsent(s: seq<Hand>, x: Hand)
    requires x !in s
    ensures Without(s, x) == s
    decreases |s|
  {
    if s != [] {
      assert s[0] != x && x !in s[1..];
      WithoutAbsent(s[1..], x);
      assert [s[0]] + s[1..] == s;
    }
  }

  /** Unlinking keeps a list without repetition. */
  lemma {:induction false} WithoutUnique(s: seq<Hand>, x: Hand)
    requires Unique(s)
    ensures Unique(Without(s, x))
    decreases |s|
  {
    if s != [] {
      UniqueTail(s);
      WithoutUnique(s[1..], x);
      WithoutMembers(s[1..], x);
      if s[0] != x {
        ConsDistinct(s[0], Without(s[1..], x));
      }
    }
  }

  /** Unlinking a hand that is not the permanent hand, together with its
      icon hand, keeps the port's lists valid. */
  lemma UnlinkValid(port: Port, hs: seq<Hand>, ics: seq<Hand>, ph: Hand?, h: Hand)
    requires ListsValid(port, hs, ics, ph) && h in hs && !h.permanent
    ensures ListsValid(port, Without(hs, h), if h.icon == null then ics else Without(ics, h.icon), ph)
  {
    var hs2 := Without(hs, h);
    var ics2 := if h.icon == null then ics else Without(ics, h.icon);
    WithoutUnique(hs, h);
    WithoutMembers(hs, h);
    if h.icon != null {
      WithoutUnique(ics, h.icon);
      WithoutMembers(ics, h.icon);
    }
    forall g | g in hs2 && g.icon != null ensures g.icon in ics2 {
      assert g in hs && g != h;
    }
    forall ih | ih in ics2 ensures ih.icon in hs2 {
      assert ih in ics && ih != h.icon;
    }
  }

  // ---------------------------------------------------------------------
  // destroy_hand

  /** The frame-advance timers destroy_hand cancels for hand h whose icon
      hand is ih. */
  function FlashKeys(h: Hand, ih: Hand?): (ks: set<Key>)
    ensures Key(A_FLASH, h) in ks
    ensures ih != null ==> Key(A_FLASH, ih) in ks
    ensures forall k :: k in ks ==> k.action == A_FLASH && (k.data == h || k.data == ih)
  {
    {Key(A_FLASH, h)} + (if ih == null then {} else {Key(A_FLASH, ih)})
  }

  /** The two unschedule_data calls of destroy_hand. */
  method CancelFlash(h: Hand, sched: Scheduler)
    modifies sched`pending
    ensures sched.pending == old(sched.pending) - FlashKeys(h, h.icon)
  {
    sched.Unschedule(A_FLASH, h);
    if h.icon != null {
      sched.Unschedule(A_FLASH, h.icon);
    }
  }

  /** The permanent-hand branch of destroy_hand: hand and icon unmapped,
      the hand marked withdrawn. */
  method HideHand(h: Hand)
    requires h.port.Valid() && h in h.port.hands && h.icon != null
    modifies h`mapped, h`withdrawn, h.icon`mapped
    ensures !h.mapped && h.withdrawn && !h.icon.mapped
    ensures h.port.Valid()
  {
    h.mapped := false;
    h.icon.mapped := false;
    h.withdrawn := true;
  }

  /** The other branch of destroy_hand: the hand unlinked from the hand list
      and its icon, if any, from the icon list. */
  method UnlinkHand(port: Port, h: Hand)
    requires port.Valid() && h in port.hands && !h.permanent
    modifies port`hands, port`iconHands
    ensures port.hands == Without(old(port.hands), h)
    ensures port.iconHands == if h.icon == null then old(port.iconHands) else Without(old(port.iconHands), h.icon)
    ensures port.Valid()
  {
    UnlinkValid(port, port.hands, port.iconHands, port.permanentHand, h);
    if h.icon != null {
      port.iconHands := Without(port.iconHands, h.icon);
    }
    port.hands := Without(port.hands, h);
  }

  /** destroy_hand: cancel the hand's and its icon's timers; the permanent
      hand is only hidden (hand and icon unmapped, hand withdrawn) and stays
      in both lists; any other hand is unlinked from the hand list and its
      icon from the icon list. The lists stay valid either way. */
  method DestroyHand(h: Hand, sched: Scheduler)
    requires h.port.Valid() && h in h.port.hands
    modifies h.port`hands, h.port`iconHands, h`mapped, h`withdrawn, {h.icon}`mapped, sched`pending
    ensures h.port.Valid() && h.icon == old(h.icon)
    ensures sched.pending == old(sched.pending) - FlashKeys(h, h.icon)
    ensures h.permanent ==>
      && h.port.hands == old(h.port.hands) && h.port.iconHands == old(h.port.iconHands)
      && !h.mapped && h.withdrawn && h.icon != null && !h.icon.mapped
    ensures !h.permanent ==>
      && h.port.hands == Without(old(h.port.hands), h)
      && h.port.iconHands == (if h.icon == null then old(h.port.iconHands) else Without(old(h.port.iconHands), h.icon))
      && h.mapped == old(h.mapped) && h.withdrawn == old(h.withdrawn)
      && (h.icon != null ==> h.icon.mapped == old(h.icon.mapped))
  {
    var port := h.port;
    CancelFlash(h, sched);
    if h.permanent {
      HideHand(h);
    } else {
      UnlinkHand(port, h);
    }
  }

  // ---------------------------------------------------------------------
  // unmap_all

  /** The icon hand of every hand of hs, in order. */
  function IconsAt(hs: seq<Hand>): (ics: seq<Hand?>)
    reads hs`icon
    ensures |ics| == |hs|
    ensures forall i :: 0 <= i < |hs| ==> ics[i] == hs[i].icon
    decreases |hs|
  {
    if hs == [] then [] else [hs[0].icon] + IconsAt(hs[1..])
  }

  /** The timers destroy_hand cancels for every hand of hs, ics[i] being
      the icon of hs[i]. */
  function FlashKeysOf(hs: seq<Hand>, ics: seq<Hand?>): set<Key>
    requires |hs| == |ics|
    decreases |hs|
  {
    if hs == [] then {} else FlashKeys(hs[0], ics[0]) + FlashKeysOf(hs[1..], ics[1..])
  }

  /** A timer is cancelled for hs exactly when it is the frame timer of a
      hand of hs or of that hand's icon. */
  lemma {:induction false} FlashKeysOfSpec(hs: seq<Hand>, ics: seq<Hand?>, k: Key)
    requires |hs| == |ics|
    ensures k in FlashKeysOf(hs, ics) <==>
      k.action == A_FLASH && exists i :: 0 <= i < |hs| && (k.data == hs[i] || (ics[i] != null && k.data == ics[i]))
    decreases |hs|
  {
    if hs != [] {
      FlashKeysOfSpec(hs[1..], ics[1..], k);
      if k in FlashKeysOf(hs[1..], ics[1..]) {
        var i :| 0 <= i < |hs[1..]| && (k.data == hs[1..][i] || (ics[1..][i] != null && k.data == ics[1..][i]));
        assert hs[1..][i] == hs[i + 1] && ics[1..][i] == ics[i + 1];
      }
      if k.action == A_FLASH && k !in FlashKeys(hs[0], ics[0]) {
        forall i | 1 <= i < |hs| && (k.data == hs[i] || (ics[i] != null && k.data == ics[i]))
          ensures k in FlashKeysOf(hs[1..], ics[1..])
        {
          assert hs[i] == hs[1..][i - 1] && ics[i] == ics[1..][i - 1];
        }
      }
    }
  }

  /** Cancelling for one more hand adds that hand's timers. */
  lemma {:induction false} FlashKeysOfAppend(hs: seq<Hand>, ics: seq<Hand?>, h: Hand, ih: Hand?)
    requires |hs| == |ics|
    ensures FlashKeysOf(hs + [h], ics + [ih]) == FlashKeysOf(hs, ics) + FlashKeys(h, ih)
    decreases |hs|
  {
    if hs == [] {
      assert [h][1..] == [] && [ih][1..] == [];
    } else {
      assert (hs + [h])[0] == hs[0] && (hs + [h])[1..] == hs[1..] + [h];
      assert (ics + [ih])[0] == ics[0] && (ics + [ih])[1..] == ics[1..] + [ih];
      FlashKeysOfAppend(hs[1..], ics[1..], h, ih);
    }
  }

  /** Cancelling for one more hand of a list, in list order. */
  lemma FlashKeysOfPrefix(hs: seq<Hand>, ics: seq<Hand?>, k: int)
    requires |hs| == |ics| && 0 <= k < |hs|
    ensures FlashKeysOf(hs[..k + 1], ics[..k + 1]) == FlashKeysOf(hs[..k], ics[..k]) + FlashKeys(hs[k], ics[k])
  {
    assert hs[..k + 1] == hs[..k] + [hs[k]] && ics[..k + 1] == ics[..k] + [ics[k]];
    FlashKeysOfAppend(hs[..k], ics[..k], hs[k], ics[k]);
  }

  /** One more hand's timers cancelled: a scheduler that lacks the timers
      of the first k hands, less those of hand k, lacks those of the first
      k + 1. */
  lemma CancelNext<V>(m: map<Key, V>, m0: map<Key, V>, hs: seq<Hand>, ics: seq<Hand?>, k: int)
    requires |hs| == |ics| && 0 <= k < |hs|
    requires m == m0 - FlashKeysOf(hs[..k], ics[..k])
    ensures m - FlashKeys(hs[k], ics[k]) == m0 - FlashKeysOf(hs[..k + 1], ics[..k + 1])
  {
    FlashKeysOfPrefix(hs, ics, k);
  }

  /** The whole list is its longest prefix. */
  lemma FlashKeysOfWhole(hs: seq<Hand>, ics: seq<Hand?>)
    requires |hs| == |ics|
    ensures FlashKeysOf(hs[..|hs|], ics[..|ics|]) == FlashKeysOf(hs, ics)
  {
    assert hs[..|hs|] == hs && ics[..|ics|] == ics;
  }

  /** A valid port whose hand list is at most its permanent hand has only
      that hand's icon in its icon list. */
  lemma SoleIcon(port: Port, ics: seq<Hand>, ph: Hand?)
    requires ListsValid(port, if ph == null then [] else [ph], ics, ph)
    ensures ics == if ph == null then [] else [ph.icon]
  {
    assert forall k :: 0 <= k < |ics| ==> ics[k] in ics;
    if ph != null {
      assert ph.icon in ics;
      assert ics[0] == ph.icon && ics[|ics| - 1] == ph.icon;
    }
  }

  /** Two hands of a valid port have different icons. */
  lemma LinkedApart(port: Port, i: int, j: int)
    requires port.Valid() && 0 <= i < j < |port.hands|
    ensures port.hands[i] != port.hands[j]
    ensures port.hands[i].icon == null || port.hands[i].icon != port.hands[j].icon
  {
    assert port.hands[i] in port.hands && port.hands[j] in port.hands;
  }

  /** The permanent hand as unmap_all leaves it: slideshow dropped, hand
      and icon unmapped, hand withdrawn. */
  ghost predicate Stripped(h: Hand)
    reads h, h.icon
  {
    h.slideshow == null && !h.mapped && h.withdrawn && h.icon != null && !h.icon.mapped
  }

  /** The state of the unmap_all loop on a valid port: `prev`, once set, is
      the stripped permanent hand heading the list, and `rest` are the
      hands not yet destroyed, which follow it. */
  ghost predicate Cursor(port: Port, prev: Hand?, rest: seq<Hand>)
    reads port, port.hands`icon, port.iconHands`icon, if prev == null then {} else {prev, prev.icon}
  {
    && port.Valid()
    && port.hands == (if prev == null then [] else [prev]) + rest
    && (prev != null ==> prev == port.permanentHand && Stripped(prev))
    && (prev == null ==> port.permanentHand == null || port.permanentHand in rest)
  }

  /** The list work of one turn of the unmap_all loop: remember and strip
      the permanent hand, then destroy_hand, then step to `prev->next` (or
      the head while no permanent hand was met). `rest` are the hands still
      to destroy, trav the first of them. */
  method DestroyAtCursor(port: Port, sched: Scheduler, prev: Hand?, trav: Hand, ghost rest: seq<Hand>)
    returns (prev': Hand?, trav': Hand?)
    requires Cursor(port, prev, rest) && rest != [] && trav == rest[0]
    modifies port`hands, port`iconHands, sched`pending
    modifies trav`mapped, trav`withdrawn, trav`slideshow, {trav.icon}`mapped
    ensures Cursor(port, prev', rest[1..])
    ensures trav' == if rest[1..] == [] then null else rest[1..][0]
    ensures sched.pending == old(sched.pending) - FlashKeys(trav, trav.icon)
    ensures trav.icon == old(trav.icon)
  {
    var i := if prev == null then 0 else 1;
    assert port.hands[i] == trav && port.hands[..i] == (if prev == null then [] else [prev]);
    assert port.hands[i + 1..] == rest[1..];
    if prev != null {
      LinkedApart(port, 0, 1);
    }
    WithoutAt(port.hands, i);
    prev' := prev;
    if trav.permanent {
      prev' := trav;
      trav.slideshow := null;
    }
    DestroyHand(trav, sched);
    trav' := if prev' == null then (if port.hands == [] then null else port.hands[0])
             else (if |port.hands| > 1 then port.hands[1] else null);
  }

  /** One turn of the unmap_all loop, with the bookkeeping of the timers
      cancelled so far. `all` is the list the loop started from, `icons`
      their icons, trav = all[k] the hand at the cursor; `m0` is the
      scheduler's timers before the loop. */
  method UnmapStep(port: Port, sched: Scheduler, prev: Hand?, trav: Hand,
                   ghost all: seq<Hand>, ghost icons: seq<Hand?>, ghost m0: map<Key, Timeval>, ghost k: int)
    returns (prev': Hand?, trav': Hand?)
    requires 0 <= k < |all| && |icons| == |all| && trav == all[k] && trav.icon == icons[k]
    requires Cursor(port, prev, all[k..])
    requires sched.pending == m0 - FlashKeysOf(all[..k], icons[..k])
    modifies port`hands, port`iconHands, sched`pending
    modifies trav`mapped, trav`withdrawn, trav`slideshow, {trav.icon}`mapped
    ensures Cursor(port, prev', all[k + 1..])
    ensures trav' == if k + 1 == |all| then null else all[k + 1]
    ensures sched.pending == m0 - FlashKeysOf(all[..k + 1], icons[..k + 1])
  {
    CancelNext(sched.pending, m0, all, icons, k);
    assert all[k..][1..] == all[k + 1..];
    prev', trav' := DestroyAtCursor(port, sched, prev, trav, all[k..]);
  }

  /** The loop of unmap_all for one port: destroy_hand on every hand,
      walking the list with the `prev`/`trav` cursor so that the permanent
      hand, which stays in the list, is stepped over. Afterwards the list
      holds only the permanent hand (if any), hidden and without slideshow,
      and the frame timers of every hand and icon it held are cancelled. */
  method UnmapPort(port: Port, sched: Scheduler)
    requires port.Valid()
    modifies port`hands, port`iconHands, sched`pending
    modifies (set h | h in port.hands)`mapped, (set h | h in port.hands)`withdrawn
    modifies (set h | h in port.hands)`slideshow, (set h | h in port.iconHands)`mapped
    ensures port.Valid()
    ensures port.hands == (if port.permanentHand == null then [] else [port.permanentHand])
    ensures port.iconHands == (if port.permanentHand == null then [] else [port.permanentHand.icon])
    ensures port.permanentHand != null ==> Stripped(port.permanentHand)
    ensures sched.pending == old(sched.pending) - FlashKeysOf(old(port.hands), old(IconsAt(port.hands)))
  {
    ghost var all := port.hands;
    ghost var icons := IconsAt(all);
    ghost var k := 0;
    var prev: Hand? := null;
    var trav: Hand? := if port.hands == [] then null else port.hands[0];
    while trav != null
      invariant 0 <= k <= |all| && Cursor(port, prev, all[k..])
      invariant trav == if k == |all| then null else all[k]
      invariant forall j :: k <= j < |all| && icons[j] != null ==> icons[j] in old(port.iconHands)
      invariant sched.pending == old(sched.pending) - FlashKeysOf(all[..k], icons[..k])
      decreases |all| - k
    {
      assert trav.icon == old(trav.icon) == icons[k];
      prev, trav := UnmapStep(port, sched, prev, trav, all, icons, old(sched.pending), k);
      k := k + 1;
    }
    FlashKeysOfWhole(all, icons);
    UnmapDone(port, prev);
  }

  /** Where the unmap_all loop stops: only the permanent hand (if any) is
      left, stripped, together with its icon. */
  lemma UnmapDone(port: Port, prev: Hand?)
    requires Cursor(port, prev, [])
    ensures port.hands == (if port.permanentHand == null then [] else [port.permanentHand])
    ensures port.iconHands == (if port.permanentHand == null then [] else [port.permanentHand.icon])
    ensures port.permanentHand != null ==> Stripped(port.permanentHand)
  {
    assert port.hands == if prev == null then [] else [prev];
    SoleIcon(port, port.iconHands, port.permanentHand);
  }

  /** What unmap_all leaves on a port: the hand list holding only the
      permanent hand (if any), stripped and linked to its icon, and the
      icon list only that icon. */
  ghost predicate Unmapped(port: Port)
    reads port, if port.permanentHand == null then {} else {port.permanentHand, port.permanentHand.icon}
  {
    var ph := port.permanentHand;
    if ph == null then port.hands == [] && port.iconHands == []
    else
      && port.hands == [ph] && port.iconHands == [ph.icon]
      && Stripped(ph) && ph.port == port && ph.permanent && !ph.isIcon
      && ph.icon.port == port && ph.icon.isIcon && ph.icon.icon == ph
  }

  /** An unmapped port is a valid one, and a valid port holding only its
      stripped permanent hand is unmapped. */
  lemma UnmappedValid(port: Port)
    ensures Unmapped(port) ==> port.Valid()
    ensures
      (&& port.Valid()
       && port.hands == (if port.permanentHand == null then [] else [port.permanentHand])
       && port.iconHands == (if port.permanentHand == null then [] else [port.permanentHand.icon])
       && (port.permanentHand != null ==> Stripped(port.permanentHand)))
      ==> Unmapped(port)
  {
    if port.permanentHand != null && port.Valid() && port.hands == [port.permanentHand] {
      assert port.permanentHand in port.hands;
    }
  }

  /** The timers unmap_all cancels on a port: those of every hand it holds
      and of that hand's icon. */
  function PortKeys(port: Port): set<Key>
    reads port, (set h | h in port.hands)`icon
  {
    FlashKeysOf(port.hands, IconsAt(port.hands))
  }

  /** The timers unmap_all cancels on all ports. */
  function PortsKeys(ps: seq<Port>): set<Key>
    reads ps, (set p, h | p in ps && h in p.hands :: h)`icon
    decreases |ps|
  {
    if ps == [] then {}
    else
      assert ps[0] in ps;
      PortKeys(ps[0]) + PortsKeys(ps[1..])
  }

  /** Cancelling the timers of one more port, in port order. */
  lemma {:induction false} PortsKeysPrefix(ps: seq<Port>, i: int)
    requires 0 <= i < |ps|
    ensures PortsKeys(ps[..i + 1]) == PortsKeys(ps[..i]) + PortKeys(ps[i])
    decreases i
  {
    if i == 0 {
      assert ps[..1][1..] == [] && ps[..1][0] == ps[0];
    } else {
      PortsKeysPrefix(ps[1..], i - 1);
      assert ps[..i + 1][1..] == ps[1..][..i] && ps[..i][1..] == ps[1..][..i - 1];
      assert ps[1..][i - 1] == ps[i] && ps[..i + 1][0] == ps[..i][0] == ps[0];
    }
  }

  /** The permanent hand of an unmapped port, and its icon, are not on
      another valid port. */
  lemma UnmappedApart(p: Port, q: Port)
    requires p.Valid() && Unmapped(q) && p != q
    ensures q.permanentHand != null ==>
      q.permanentHand !in p.hands && q.permanentHand.icon !in p.iconHands
  {
    if q.permanentHand != null {
      assert q.permanentHand in q.hands && q.permanentHand.icon in q.iconHands;
    }
  }

  /** One turn of the port loop of unmap_all: the ports before i are
      already unmapped, port i is unmapped now, and the ports after it are
      left alone. `m0` is the scheduler's timers before the loop and `done`
      the timers cancelled so far. */
  method UnmapNext(ports: seq<Port>, port: Port, sched: Scheduler, i: int, ghost m0: map<Key, Timeval>, ghost done: set<Key>)
    requires 0 <= i < |ports| && port == ports[i] && forall a, b :: 0 <= a < b < |ports| ==> ports[a] != ports[b]
    requires forall j :: 0 <= j < i ==> Unmapped(ports[j])
    requires forall j :: i <= j < |ports| ==> ports[j].Valid()
    requires sched.pending == m0 - done
    modifies port`hands, port`iconHands, sched`pending
    modifies (set h | h in port.hands)`mapped, (set h | h in port.hands)`withdrawn
    modifies (set h | h in port.hands)`slideshow, (set h | h in port.iconHands)`mapped
    ensures forall j :: 0 <= j <= i ==> Unmapped(ports[j])
    ensures forall j :: i < j < |ports| ==>
      ports[j].Valid() && ports[j].hands == old(ports[j].hands) &&
      ports[j].iconHands == old(ports[j].iconHands) && PortKeys(ports[j]) == old(PortKeys(ports[j]))
    ensures sched.pending == m0 - (done + old(PortKeys(ports[i])))
  {
    forall j | 0 <= j < i
      ensures ports[j] != ports[i] && ports[j] as object != sched
      ensures ports[j].permanentHand != null ==>
        ports[j].permanentHand !in ports[i].hands && ports[j].permanentHand.icon !in ports[i].iconHands
    {
      UnmappedApart(ports[i], ports[j]);
    }
    forall j | i < j < |ports|
      ensures ports[j] != ports[i] && ports[j] as object != sched
    {
    }
    UnmapPort(ports[i], sched);
    UnmappedValid(ports[i]);
  }

  /** unmap_all: the loop above on every port in turn. Every port ends as
      Unmapped and the frame timers of every hand and icon are cancelled. */
  method UnmapAll(ports: seq<Port>, sched: Scheduler)
    requires forall a, b :: 0 <= a < b < |ports| ==> ports[a] != ports[b]
    requires forall i :: 0 <= i < |ports| ==> ports[i].Valid()
    modifies ports`hands, ports`iconHands, sched`pending
    modifies (set p, h | p in ports && h in p.hands :: h)`mapped
    modifies (set p, h | p in ports && h in p.hands :: h)`withdrawn
    modifies (set p, h | p in ports && h in p.hands :: h)`slideshow
    modifies (set p, h | p in ports && h in p.iconHands :: h)`mapped
    ensures forall i :: 0 <= i < |ports| ==> Unmapped(ports[i])
    ensures sched.pending == old(sched.pending) - old(PortsKeys(ports))
  {
    forall i | 0 <= i < |ports|
      ensures PortsKeys(ports[..i + 1]) == PortsKeys(ports[..i]) + PortKeys(ports[i])
    {
      PortsKeysPrefix(ports, i);
    }
    var i := 0;
    while i < |ports|
      invariant 0 <= i <= |ports|
      invariant forall j :: 0 <= j < i ==> Unmapped(ports[j])
      invariant forall j :: i <= j < |ports| ==>
        ports[j].Valid() && ports[j].hands == old(ports[j].hands) &&
        ports[j].iconHands == old(ports[j].iconHands) && PortKeys(ports[j]) == old(PortKeys(ports[j]))
      invariant sched.pending == old(sched.pending) - old(PortsKeys(ports[..i]))
    {
      assert ports[i] in ports;
      UnmapNext(ports, ports[i], sched, i, old(sched.pending), old(PortsKeys(ports[..i])));
      i := i + 1;
    }
    assert ports[..i] == ports;
  }
}
