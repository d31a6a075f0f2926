/** How the reader thread finds a socket: the order of addresses, the backoff between attempts, and the
    descriptors it opens and closes on the way. */
module Dialing {
  import opened Common

  datatype Family = V4 | V6 | OtherFamily

  datatype Address = Address(id: nat, family: Family)

  // ---- The order of addresses -----------------------------------------------------------------

  function OfFamily(list: seq<Address>, family: Family): seq<Address> {
    if list == [] then []
    else OfFamily(list[..|list| - 1], family) + if list[|list| - 1].family == family then [list[|list| - 1]] else []
  }

  function Head(s: seq<Address>): seq<Address> {
    if s == [] then [] else [s[0]]
  }

  function Tail(s: seq<Address>): seq<Address> {
    if s == [] then [] else s[1..]
  }

  /** IPv6 and IPv4 in turn, IPv6 first, until both lists are used up. */
  function Interleave(v6: seq<Address>, v4: seq<Address>): seq<Address>
    decreases |v6| + |v4|
  {
    if v6 == [] && v4 == [] then []
    else Head(v6) + Head(v4) + Interleave(Tail(v6), Tail(v4))
  }

  function Min(a: int, b: int): int {
    if a <= b then a else b
  }

  lemma InterleaveStep(v6: seq<Address>, v4: seq<Address>)
    requires v6 != [] || v4 != []
    ensures Interleave(v6, v4) == (Head(v6) + Head(v4)) + Interleave(Tail(v6), Tail(v4))
  {
  }

  lemma {:induction false} InterleaveLength(v6: seq<Address>, v4: seq<Address>)
    ensures |Interleave(v6, v4)| == |v6| + |v4|
    decreases |v6| + |v4|
  {
    if v6 != [] || v4 != [] {
      InterleaveLength(Tail(v6), Tail(v4));
    }
  }

  lemma {:induction false} PlaceOfV6(v6: seq<Address>, v4: seq<Address>, i: nat)
    requires i < |v6|
    ensures i + Min(i, |v4|) < |Interleave(v6, v4)| && Interleave(v6, v4)[i + Min(i, |v4|)] == v6[i]
    decreases |v6| + |v4|
  {
    InterleaveStep(v6, v4);
    hide Interleave;
    if i > 0 {
      PlaceOfV6(Tail(v6), Tail(v4), i - 1);
    }
  }

  lemma {:induction false} PlaceOfV4(v6: seq<Address>, v4: seq<Address>, j: nat)
    requires j < |v4|
    ensures j + Min(j + 1, |v6|) < |Interleave(v6, v4)| && Interleave(v6, v4)[j + Min(j + 1, |v6|)] == v4[j]
    decreases |v6| + |v4|
  {
    InterleaveStep(v6, v4);
    hide Interleave;
    if j > 0 {
      PlaceOfV4(Tail(v6), Tail(v4), j - 1);
    }
  }

  /** Where every address stands: IPv6 item i at i + min(i, #v4), IPv4 item j at j + min(j + 1, #v6). The two
      families fill the list, each in its own order. */
  lemma InterleavePositions(v6: seq<Address>, v4: seq<Address>)
    ensures |Interleave(v6, v4)| == |v6| + |v4|
    ensures forall i :: 0 <= i < |v6| ==> Interleave(v6, v4)[i + Min(i, |v4|)] == v6[i]
    ensures forall j :: 0 <= j < |v4| ==> Interleave(v6, v4)[j + Min(j + 1, |v6|)] == v4[j]
  {
    hide Interleave;
    InterleaveLength(v6, v4);
    forall i | 0 <= i < |v6| ensures Interleave(v6, v4)[i + Min(i, |v4|)] == v6[i] {
      PlaceOfV6(v6, v4, i);
    }
    forall j | 0 <= j < |v4| ensures Interleave(v6, v4)[j + Min(j + 1, |v6|)] == v4[j] {
      PlaceOfV4(v6, v4, j);
    }
  }

  lemma OfFamilyStep(list: seq<Address>, k: nat, family: Family)
    requires k < |list|
    ensures OfFamily(list[..k + 1], family) ==
            if list[k].family == family then OfFamily(list[..k], family) + [list[k]] else OfFamily(list[..k], family)
  {
    assert list[..k + 1][..k] == list[..k];
  }

  /** The first loop of `resolve`: split the answer by family, dropping other families. */
  method SplitFamilies(resolved: seq<Address>) returns (v6: seq<Address>, v4: seq<Address>)
    ensures v6 == OfFamily(resolved, V6) && v4 == OfFamily(resolved, V4)
  {
    v6, v4 := [], [];
    for k := 0 to |resolved|
      invariant v6 == OfFamily(resolved[..k], V6) && v4 == OfFamily(resolved[..k], V4)
    {
      OfFamilyStep(resolved, k, V6);
      OfFamilyStep(resolved, k, V4);
      if resolved[k].family == V6 {
        v6 := v6 + [resolved[k]];
      } else if resolved[k].family == V4 {
        v4 := v4 + [resolved[k]];
      }
    }
    assert resolved[..|resolved|] == resolved;
  }

  /** The family's list holds exactly its addresses, in their order: item `i` is address `at[i]`. */
  lemma {:induction false} OfFamilyInOrder(list: seq<Address>, family: Family) returns (at: seq<nat>)
    ensures |at| == |OfFamily(list, family)|
    ensures forall i :: 0 <= i < |at| ==> at[i] < |list| && OfFamily(list, family)[i] == list[at[i]]
    ensures forall i, j :: 0 <= i < j < |at| ==> at[i] < at[j]
    ensures forall k :: 0 <= k < |list| ==> (k in at <==> list[k].family == family)
  {
    at := [];
    if list != [] {
      var n := |list| - 1;
      at := OfFamilyInOrder(list[..n], family);
      if list[n].family == family { at := at + [n]; }
    }
  }

  /** The second loop of `resolve`: drain both lists in turn. */
  method OrderAddresses(resolved: seq<Address>) returns (addresses: seq<Address>)
    ensures addresses == Interleave(OfFamily(resolved, V6), OfFamily(resolved, V4))
  {
    var v6, v4 := SplitFamilies(resolved);
    ghost var all := Interleave(v6, v4);
    addresses := [];
    hide Interleave, OfFamily;
    while v6 != [] || v4 != []
      invariant addresses + Interleave(v6, v4) == all
      decreases |v6| + |v4|
    {
      InterleaveStep(v6, v4);
      ghost var first, second, before := Head(v6), Head(v4), addresses;
      ghost var rest := Interleave(Tail(v6), Tail(v4));
      if v6 != [] {
        addresses, v6 := addresses + [v6[0]], v6[1..];
      }
      if v4 != [] {
        addresses, v4 := addresses + [v4[0]], v4[1..];
      }
      assert addresses == before + first + second;
      Regroup(before, first + second, rest);
      Regroup(before, first, second);
    }
    InterleaveLength(v6, v4);
  }

  // ---- Backoff ----------------------------------------------------------------------------------

  function Doubled(backoff: nat, max: nat): nat {
    if backoff * 2 > max then max else backoff * 2
  }

  /** The wait after `k` earlier waits since the last TCP connect. */
  function WaitAfter(initial: nat, max: nat, k: nat): nat {
    if k == 0 then initial else Doubled(WaitAfter(initial, max, k - 1), max)
  }

  /** The wait doubles up to the maximum; the very first wait obeys it exactly when the initial one does. */
  lemma {:induction false} BackoffClosedForm(initial: nat, max: nat, k: nat)
    ensures k > 0 ==> WaitAfter(initial, max, k) == Min(initial * Pow2(k), max)
    ensures WaitAfter(initial, max, k) == Min(initial * Pow2(k), max) <==> k > 0 || initial <= max
  {
    if k > 0 {
      BackoffClosedForm(initial, max, k - 1);
      assert initial * Pow2(k) == 2 * (initial * Pow2(k - 1));
    }
  }

  // ---- Descriptors --------------------------------------------------------------------------------

  const INVALID := -1

  datatype State = RESOLVING | DIALING | AUTHENTICATING | CONNECTED | BACKOFF | SOCKET_ERROR | STOP

  datatype Resolved = LookupFailed | Found(list: seq<Address>)

  /** What `socket` and `connect` answer for one address. */
  datatype Attempt = NoSocket | ConnectFails(fd: nat) | InProgress(fd: nat)

  /** What the system answers during one turn of the reader's loop. */
  datatype Env = Env(
    resolved: Resolved,
    attempt: Attempt,
    selectFails: bool,        // select() < 0
    writable: set<int>,       // the descriptors select() reports
    broken: set<int>,         // those with SO_ERROR set
    attemptDue: bool,         // 250 ms have passed since the last attempt
    timedOut: bool,           // the connection timeout has passed since the last attempt
    received: bool,           // recvLoop returned true
    connack: bool,            // and it was a CONNACK with code 0
    stopSelect: bool,         // STOP was stored before connectToAny's check after select()
    stopBefore: bool,         // STOP was stored before the turn's last check for it, or before its end when it has none
    stopAfter: bool           // STOP was stored after the turn's last store of another state
  )

  /** connectToAny's last check sees a STOP stored before its first check as well. */
  predicate Stopped(env: Env) {
    env.stopSelect || env.stopBefore
  }

  function Kept(fd: int, broken: set<int>): seq<int> {
    if fd in broken then [] else [fd]
  }

  /** The sockets without an error, in their order. */
  function Survivors(sockets: seq<int>, broken: set<int>): seq<int> {
    if sockets == [] then []
    else Kept(sockets[0], broken) + Survivors(sockets[1..], broken)
  }

  function FirstIn(sockets: seq<int>, ready: set<int>): int {
    if sockets == [] then INVALID else if sockets[0] in ready then sockets[0] else FirstIn(sockets[1..], ready)
  }

  /** Writable and without an error. */
  predicate Usable(fd: int, env: Env) {
    fd in env.writable && fd !in env.broken
  }

  /** The first writable socket without an error, or INVALID. */
  function Chosen(sockets: seq<int>, env: Env): int {
    FirstIn(Survivors(sockets, env.broken), env.writable)
  }

  /** `fd` is usable and no earlier socket is. */
  ghost predicate FirstUsable(fd: int, sockets: seq<int>, env: Env) {
    && Usable(fd, env)
    && exists k :: 0 <= k < |sockets| && sockets[k] == fd && forall j :: 0 <= j < k ==> !Usable(sockets[j], env)
  }

  lemma ChosenStep(sockets: seq<int>, env: Env)
    requires sockets != []
    ensures Chosen(sockets, env) == if Usable(sockets[0], env) then sockets[0] else Chosen(sockets[1..], env)
  {
    var rest := Survivors(sockets[1..], env.broken);
    if sockets[0] !in env.broken {
      assert ([sockets[0]] + rest)[1..] == rest;
    } else {
      assert [] + rest == rest;
    }
  }

  predicate NoDuplicates(s: seq<int>) {
    forall i, j :: 0 <= i < j < |s| ==> s[i] != s[j]
  }

  function Elements(s: seq<int>): set<int> {
    set x | x in s
  }

  lemma SurvivorsStep(s: seq<int>, broken: set<int>)
    requires s != []
    ensures Survivors(s, broken) == Kept(s[0], broken) + Survivors(s[1..], broken)
  {
  }

  lemma {:induction false} SurvivorsOfConcat(a: seq<int>, b: seq<int>, broken: set<int>)
    ensures Survivors(a + b, broken) == Survivors(a, broken) + Survivors(b, broken)
  {
    if a == [] {
      assert a + b == b;
    } else {
      assert (a + b)[1..] == a[1..] + b;
      SurvivorsStep(a, broken);
      SurvivorsStep(a + b, broken);
      hide Survivors, Kept;
      SurvivorsOfConcat(a[1..], b, broken);
      Regroup(Kept(a[0], broken), Survivors(a[1..], broken), Survivors(b, broken));
    }
  }

  lemma {:induction false} FirstInAppend(s: seq<int>, fd: int, ready: set<int>)
    requires forall x :: x in s ==> x != INVALID
    ensures FirstIn(s + [fd], ready) ==
            if FirstIn(s, ready) != INVALID then FirstIn(s, ready) else if fd in ready then fd else INVALID
  {
    if s != [] {
      assert s[0] in s && forall x :: x in s[1..] ==> x in s;
      FirstInAppend(s[1..], fd, ready);
      assert (s + [fd])[1..] == s[1..] + [fd];
    } else {
      assert ([fd])[1..] == [];
      assert s + [fd] == [fd];
    }
  }

  lemma {:induction false} FirstInMember(s: seq<int>, ready: set<int>)
    ensures FirstIn(s, ready) != INVALID ==> FirstIn(s, ready) in s && FirstIn(s, ready) in ready
  {
    if s != [] { FirstInMember(s[1..], ready); }
  }

  /** The erasing loop has looked at `seen` of the sockets it began with and stands at index `i`. */
  ghost predicate Scanned(all: seq<int>, seen: nat, sockets: seq<int>, i: nat, broken: set<int>) {
    && seen <= |all| && i <= |sockets|
    && sockets[..i] == Survivors(all[..seen], broken) && sockets[i..] == all[seen..]
  }

  lemma ScanStarts(all: seq<int>, env: Env)
    ensures Scanned(all, 0, all, 0, env.broken) && FirstIn(all[..0], env.writable) == INVALID
  {
    assert all[..0] == [];
  }

  lemma OneMore(all: seq<int>, seen: nat, broken: set<int>)
    requires seen < |all|
    ensures Survivors(all[..seen + 1], broken) ==
            Survivors(all[..seen], broken) + if all[seen] in broken then [] else [all[seen]]
  {
    assert all[..seen + 1] == all[..seen] + [all[seen]];
    SurvivorsOfConcat(all[..seen], [all[seen]], broken);
    assert [all[seen]][1..] == [];
  }

  lemma ScanStep(all: seq<int>, seen: nat, sockets: seq<int>, i: nat, env: Env)
    requires Scanned(all, seen, sockets, i, env.broken) && i < |sockets|
    requires forall x :: x in sockets ==> x >= 0
    ensures seen < |all| && sockets[i] in all
    ensures sockets[i] in env.broken ==>
              && Scanned(all, seen + 1, sockets[..i] + sockets[i + 1..], i, env.broken)
              && (sockets[..i] + sockets[i + 1..])[..i] == sockets[..i]
    ensures sockets[i] !in env.broken ==>
              && Scanned(all, seen + 1, sockets, i + 1, env.broken)
              && FirstIn(sockets[..i + 1], env.writable) ==
                 if FirstIn(sockets[..i], env.writable) != INVALID then FirstIn(sockets[..i], env.writable)
                 else if sockets[i] in env.writable then sockets[i] else INVALID
  {
    var fd, rest := sockets[i], sockets[i + 1..];
    assert |sockets[i..]| == |all[seen..]|;
    assert all[seen] == all[seen..][0] == sockets[i..][0] == fd;
    assert all[seen + 1..] == all[seen..][1..] == sockets[i..][1..] == rest;
    hide Survivors, FirstIn;
    OneMore(all, seen, env.broken);
    assert (sockets[..i] + rest)[..i] == sockets[..i] && (sockets[..i] + rest)[i..] == rest;
    assert sockets[..i + 1] == sockets[..i] + [fd];
    assert forall x :: x in sockets[..i] ==> x in sockets;
    FirstInAppend(sockets[..i], fd, env.writable);
  }

  lemma ScanEnds(all: seq<int>, seen: nat, sockets: seq<int>, broken: set<int>)
    requires Scanned(all, seen, sockets, |sockets|, broken)
    ensures sockets == Survivors(all, broken) && sockets[..|sockets|] == sockets
  {
    assert |all[seen..]| == 0;
    assert all[..seen] == all && sockets[..|sockets|] == sockets;
  }

  lemma RemoveAt(s: seq<int>, i: nat)
    requires i < |s| && NoDuplicates(s)
    ensures var r := s[..i] + s[i + 1..];
            && NoDuplicates(r) && Elements(r) == Elements(s) - {s[i]} && (forall x :: x in r ==> x in s)
            && r[..i] == s[..i] && r[i..] == s[i + 1..]
  {
    var r := s[..i] + s[i + 1..];
    forall x ensures x in r <==> x in s && x != s[i] {
      if x in s && x != s[i] {
        var k :| 0 <= k < |s| && s[k] == x;
        assert r[if k < i then k else k - 1] == x;
      }
    }
  }

  lemma {:induction false} SurvivorsMembers(sockets: seq<int>, broken: set<int>)
    ensures forall fd :: fd in Survivors(sockets, broken) <==> fd in sockets && fd !in broken
  {
    if sockets != [] {
      SurvivorsMembers(sockets[1..], broken);
      assert sockets == [sockets[0]] + sockets[1..];
    }
  }

  /** The survivors are the sockets that are not broken, in their order: survivor `i` is socket `at[i]`. */
  lemma {:induction false} SurvivorsInOrder(sockets: seq<int>, broken: set<int>) returns (at: seq<nat>)
    ensures |at| == |Survivors(sockets, broken)|
    ensures forall i :: 0 <= i < |at| ==> at[i] < |sockets| && Survivors(sockets, broken)[i] == sockets[at[i]]
    ensures forall i, j :: 0 <= i < j < |at| ==> at[i] < at[j]
    ensures forall k :: 0 <= k < |sockets| ==> (k in at <==> sockets[k] !in broken)
  {
    at := [];
    if sockets != [] {
      var n := |sockets| - 1;
      at := SurvivorsInOrder(sockets[..n], broken);
      OneMore(sockets, n, broken);
      assert sockets[..n + 1] == sockets;
      if sockets[n] !in broken { at := at + [n]; }
    }
  }

  lemma FirstUsableBelow(fd: int, sockets: seq<int>, env: Env)
    requires sockets != [] && !Usable(sockets[0], env) && FirstUsable(fd, sockets[1..], env)
    ensures FirstUsable(fd, sockets, env)
  {
    var rest := sockets[1..];
    var k :| 0 <= k < |rest| && rest[k] == fd && forall j :: 0 <= j < k ==> !Usable(rest[j], env);
    forall j | 0 <= j < k + 1 ensures !Usable(sockets[j], env) {
      if j > 0 { assert sockets[j] == rest[j - 1]; }
    }
    assert sockets[k + 1] == fd;
  }

  /** The chosen socket is the first usable one, and there is none exactly when no socket is usable. */
  lemma {:induction false} ChosenIsFirstUsable(sockets: seq<int>, env: Env)
    requires forall fd :: fd in sockets ==> fd >= 0
    ensures Chosen(sockets, env) == INVALID <==> forall fd :: fd in sockets ==> !Usable(fd, env)
    ensures Chosen(sockets, env) != INVALID ==> FirstUsable(Chosen(sockets, env), sockets, env)
  {
    if sockets == [] {
      assert Chosen([], env) == INVALID;
    } else {
      var first, rest := sockets[0], sockets[1..];
      assert sockets == [first] + rest && forall fd :: fd in rest ==> fd in sockets;
      ChosenIsFirstUsable(rest, env);
      ChosenStep(sockets, env);
      hide Chosen;
      if Usable(first, env) {
        assert sockets[0] == first && first in sockets;
      } else if Chosen(rest, env) != INVALID {
        hide Usable;
        FirstUsableBelow(Chosen(rest, env), sockets, env);
      }
    }
  }

  class Dialer {
    var state: State
    var addresses: seq<Address>
    var addressCurrent: nat
    var sockets: seq<int>
    var socketToAddress: map<int, Address>
    var socket: int
    var backoff: nat
    const backoffInitial: nat
    const backoffMax: nat
    /** The descriptors the process has open for this connection, and the waits since the last TCP connect. */
    ghost var open: set<int>
    ghost var waits: nat

    /** The descriptors of the pending attempts: distinct, indexed, open. */
    ghost predicate Tracked()
      reads this
    {
      && NoDuplicates(sockets) && (forall fd :: fd in sockets ==> fd >= 0)
      && socketToAddress.Keys == Elements(sockets)
      && Elements(sockets) <= open
    }

    /** What every turn of the loop keeps: nothing is open but the pending attempts and the chosen socket, and
        those only in the states that own them. */
    ghost predicate Valid()
      reads this
    {
      && Tracked() && addressCurrent <= |addresses| && socket >= INVALID
      && open == Elements(sockets) + (if socket == INVALID then {} else {socket})
      && socket !in sockets
      && (sockets != [] ==> state == DIALING || state == STOP)
      && (socket != INVALID ==> state == AUTHENTICATING || state == CONNECTED || state == STOP)
      && backoff == WaitAfter(backoffInitial, backoffMax, waits)
    }

    constructor (backoffInitial: nat, backoffMax: nat)
      ensures Valid() && state == RESOLVING && open == {} && waits == 0
      ensures this.backoffInitial == backoffInitial && this.backoffMax == backoffMax
    {
      state, addresses, addressCurrent, sockets, socketToAddress := RESOLVING, [], 0, [], map[];
      socket, backoff, open, waits := INVALID, backoffInitial, {}, 0;
      this.backoffInitial, this.backoffMax := backoffInitial, backoffMax;
    }

    /** closesocket: what is closed was open. */
    method CloseFd(fd: int)
      requires fd in open
      modifies this`open
      ensures open == old(open) - {fd}
    {
      open := open - {fd};
    }

    /** resolve(). */
    method Resolve(r: Resolved, stop: bool) returns (ok: bool)
      requires Valid() && state == RESOLVING
      modifies this`addresses, this`addressCurrent, this`socket, this`state
      ensures Valid() && addressCurrent == 0
      ensures ok <==> r.Found? && Interleave(OfFamily(r.list, V6), OfFamily(r.list, V4)) != []
      ensures addresses == if r.Found? then Interleave(OfFamily(r.list, V6), OfFamily(r.list, V4)) else []
      ensures state == if !ok then RESOLVING else if stop then STOP else DIALING
    {
      hide Interleave, OfFamily;
      addressCurrent, socket, addresses := 0, INVALID, [];
      if r.LookupFailed? {
        return false;
      }
      addresses := OrderAddresses(r.list);
      if addresses == [] {
        return false;
      }
      state := if stop then STOP else DIALING;
      ok := true;
    }

    /** tryNextAddress() with connect(): the next address, each once, or false when all were tried. */
    method TryNextAddress(attempt: Attempt) returns (ok: bool)
      requires Valid() && state == DIALING
      requires attempt.ConnectFails? || attempt.InProgress? ==> attempt.fd !in open
      modifies this`addressCurrent, this`sockets, this`socketToAddress, this`open
      ensures Valid()
      ensures ok <==> old(addressCurrent) < |addresses|
      ensures addressCurrent == old(addressCurrent) + if ok then 1 else 0
      ensures sockets == old(sockets) + if ok && attempt.InProgress? then [attempt.fd] else []
      ensures ok && attempt.InProgress? ==>
                socketToAddress == old(socketToAddress)[attempt.fd := addresses[old(addressCurrent)]]
      ensures !(ok && attempt.InProgress?) ==> socketToAddress == old(socketToAddress) && open == old(open)
    {
      if addressCurrent >= |addresses| {
        return false;
      }
      var address := addresses[addressCurrent];
      addressCurrent := addressCurrent + 1;
      ok := true;
      match attempt {
        case NoSocket =>
        case ConnectFails(fd) =>
          open := open + {fd};
          CloseFd(fd);
        case InProgress(fd) =>
          open := open + {fd};
          socketToAddress := socketToAddress[fd := address];
          sockets := sockets + [fd];
      }
    }

    /** Close every socket of `list` but `keep`. */
    method CloseAllBut(list: seq<int>, keep: int)
      requires NoDuplicates(list) && Elements(list) <= open
      modifies this`open
      ensures open == old(open) - (Elements(list) - {keep})
    {
      for k := 0 to |list|
        invariant open == old(open) - (Elements(list[..k]) - {keep})
      {
        assert list[..k + 1] == list[..k] + [list[k]];
        if list[k] != keep {
          CloseFd(list[k]);
        }
      }
      assert list[..|list|] == list;
    }

    /** The erasing loop of connectToAny: close and forget the broken sockets, remember the first writable one. */
    method DropBroken(env: Env) returns (connected: int)
      requires Tracked()
      modifies this`sockets, this`socketToAddress, this`open
      ensures Tracked()
      ensures sockets == Survivors(old(sockets), env.broken)
      ensures connected == Chosen(old(sockets), env)
      ensures open == old(open) - (Elements(old(sockets)) - Elements(sockets))
    {
      hide Survivors, FirstIn, Scanned;
      connected := INVALID;
      var i := 0;
      ghost var all, seen := sockets, 0;
      ScanStarts(all, env);
      while i < |sockets|
        invariant 0 <= i <= |sockets| && 0 <= seen <= |all| && Tracked()
        invariant Scanned(all, seen, sockets, i, env.broken)
        invariant connected == FirstIn(sockets[..i], env.writable)
        invariant open == old(open) - (Elements(all) - Elements(sockets))
        decreases |sockets| - i
      {
        var fd := sockets[i];
        assert fd in sockets;
        ScanStep(all, seen, sockets, i, env);
        if fd in env.broken {
          CloseFd(fd);
          RemoveAt(sockets, i);
          socketToAddress := socketToAddress - {fd};
          sockets := sockets[..i] + sockets[i + 1..];
        } else {
          if connected == INVALID && fd in env.writable {
            connected := fd;
          }
          i := i + 1;
        }
        seen := seen + 1;
      }
      ScanEnds(all, seen, sockets, env.broken);
    }

    /** select() found activity on some pending socket, and no STOP was seen after it. */
    ghost predicate Active(env: Env)
      reads this
    {
      sockets != [] && !env.stopSelect && !env.selectFails && env.writable != {}
    }

    /** select() found nothing, no STOP was seen after it, and the last attempt was long enough ago. */
    ghost predicate Idle(env: Env)
      reads this
    {
      sockets != [] && !env.stopSelect && !env.selectFails && env.writable == {} && env.attemptDue
    }

    /** The end of connectToAny: close the other attempts and keep the connected socket. */
    method Adopt(connected: int, stop: bool)
      requires Tracked() && open == Elements(sockets) && connected in sockets && addressCurrent <= |addresses|
      modifies this`state, this`sockets, this`socketToAddress, this`socket, this`backoff, this`open, this`waits
      ensures Valid() && socket == connected && open == {connected} && waits == 0
      ensures state == if stop then STOP else AUTHENTICATING
    {
      CloseAllBut(sockets, connected);
      socketToAddress, sockets := map[], [];
      socket, state := connected, if stop then STOP else AUTHENTICATING;
      backoff, waits := backoffInitial, 0;
    }

    /** The part of connectToAny for activity: drop the broken sockets and adopt the first usable one. */
    method PickUsable(env: Env)
      requires Valid() && state == DIALING && Active(env)
      modifies this`state, this`sockets, this`socketToAddress, this`socket, this`backoff, this`open, this`waits
      ensures Valid()
      ensures socket != INVALID <==> exists fd :: fd in old(sockets) && Usable(fd, env)
      ensures socket != INVALID ==> FirstUsable(socket, old(sockets), env) && open == {socket}
      ensures socket == INVALID ==> sockets == Survivors(old(sockets), env.broken)
      ensures state == if socket == INVALID then DIALING else if Stopped(env) then STOP else AUTHENTICATING
      ensures waits == if socket == INVALID then old(waits) else 0
    {
      ChosenIsFirstUsable(sockets, env);
      FirstInMember(Survivors(sockets, env.broken), env.writable);
      hide Survivors, FirstIn, WaitAfter, Usable, FirstUsable;
      var connected := DropBroken(env);
      if connected != INVALID {
        Adopt(connected, Stopped(env));
      }
    }

    /** The part of connectToAny for no activity: try the next address, or give up when the time-out has passed. */
    method WaitOn(env: Env) returns (ok: bool)
      requires Valid() && state == DIALING && Idle(env)
      requires env.attempt.ConnectFails? || env.attempt.InProgress? ==> env.attempt.fd !in open
      modifies this`addressCurrent, this`sockets, this`socketToAddress, this`open
      ensures Valid()
      ensures ok <==> old(addressCurrent) < |addresses| || !env.timedOut
      ensures addressCurrent == old(addressCurrent) + if old(addressCurrent) < |addresses| then 1 else 0
      ensures ok ==> sockets == old(sockets) + if old(addressCurrent) < |addresses| && env.attempt.InProgress?
                                               then [env.attempt.fd] else []
      ensures !ok ==> sockets == [] && open == {}
    {
      hide WaitAfter;
      ok := TryNextAddress(env.attempt);
      if ok || !env.timedOut {
        return true;
      }
      CloseAllBut(sockets, INVALID);
      socketToAddress, sockets := map[], [];
    }

    /** connectToAny(). */
    method ConnectToAny(env: Env) returns (ok: bool)
      requires Valid() && state == DIALING
      requires env.attempt.ConnectFails? || env.attempt.InProgress? ==> env.attempt.fd !in open
      modifies this`state, this`addressCurrent, this`sockets, this`socketToAddress, this`socket, this`backoff,
               this`open, this`waits
      ensures Valid()
      ensures old(sockets) == [] ==> (ok <==> old(addressCurrent) < |addresses|)
      ensures old(sockets) != [] ==>
                (!ok <==> && !env.stopSelect && !env.selectFails && env.writable == {} && env.attemptDue
                          && old(addressCurrent) == |addresses| && env.timedOut)
      ensures addressCurrent ==
              old(addressCurrent) +
              if && old(addressCurrent) < |addresses|
                 && (old(sockets) == [] ||
                     (!env.stopSelect && !env.selectFails && env.writable == {} && env.attemptDue)) then 1 else 0
      ensures socket != INVALID <==>
              && !env.stopSelect && !env.selectFails
              && exists fd :: fd in old(sockets) && fd in env.writable && fd !in env.broken
      ensures socket != INVALID ==> FirstUsable(socket, old(sockets), env) && open == {socket}
      ensures state == if socket == INVALID then DIALING else if Stopped(env) then STOP else AUTHENTICATING
      ensures waits == if socket == INVALID then old(waits) else 0
      ensures !ok ==> sockets == [] && open == {}
      ensures old(sockets) != [] && !env.stopSelect && !env.selectFails && env.writable != {} && socket == INVALID ==>
                sockets == Survivors(old(sockets), env.broken)
      ensures ok && (old(sockets) == [] || env.stopSelect || env.selectFails || env.writable == {}) ==>
                sockets == old(sockets) + if addressCurrent > old(addressCurrent) && env.attempt.InProgress?
                                          then [env.attempt.fd] else []
    {
      hide Survivors, FirstUsable, WaitAfter, Tracked;
      if sockets == [] {
        ok := TryNextAddress(env.attempt);
        return;
      }
      if env.stopSelect || env.selectFails {
        return true;
      }
      if env.writable == {} {
        if !env.attemptDue {
          return true;
        }
        ok := WaitOn(env);
      } else {
        PickUsable(env);
        ok := true;
      }
    }

    /** socketError(). */
    method SocketError()
      requires Valid() && (state == AUTHENTICATING || state == CONNECTED)
      modifies this`state, this`socket, this`open
      ensures Valid() && state == SOCKET_ERROR && socket == INVALID && open == {}
    {
      state := SOCKET_ERROR;
      if socket != INVALID {
        CloseFd(socket);
        socket := INVALID;
      }
    }

    /** The STOP case of runRead: the chosen socket is closed, pending ones are not, so nothing stays open
        exactly when no attempt is pending. */
    method Stop()
      requires Valid() && state == STOP
      modifies this`socket, this`open
      ensures Valid() && socket == INVALID && open == Elements(sockets)
      ensures open == {} <==> sockets == []
    {
      if socket != INVALID {
        CloseFd(socket);
        socket := INVALID;
      }
      assert sockets != [] ==> sockets[0] in Elements(sockets);
    }

    /** recvLoop in AUTHENTICATING and CONNECTED; a CONNACK overwrites STOP. */
    method Receive(env: Env)
      requires Valid() && (state == AUTHENTICATING || state == CONNECTED)
      modifies this`state, this`socket, this`open
      ensures Valid()
      ensures state == if env.received && env.connack then CONNECTED
                       else if env.stopBefore then STOP
                       else if env.received then old(state) else SOCKET_ERROR
      ensures if state == SOCKET_ERROR then open == {} else socket == old(socket) && open == old(open)
    {
      if !env.received {
        if env.stopBefore {
          state := STOP;
        } else {
          SocketError();
        }
      } else if env.connack {
        state := CONNECTED;
      } else if env.stopBefore {
        state := STOP;
      }
    }

    /** connectToAny, and what runRead makes of its answer. */
    method Dial(env: Env)
      requires Valid() && state == DIALING
      requires env.attempt.ConnectFails? || env.attempt.InProgress? ==> env.attempt.fd !in open
      modifies this`state, this`addressCurrent, this`sockets, this`socketToAddress, this`socket, this`backoff,
               this`open, this`waits
      ensures Valid()
      ensures old(sockets) == [] ==> (state == BACKOFF <==> old(addressCurrent) == |addresses|)
      ensures old(sockets) != [] ==>
                (state == BACKOFF <==> old(Idle(env)) && old(addressCurrent) == |addresses| && env.timedOut)
      ensures state != BACKOFF ==> (state == STOP <==> Stopped(env))
      ensures state == DIALING ==> socket == INVALID
      ensures state == AUTHENTICATING ==> socket != INVALID
      ensures state == BACKOFF ==> open == {}
      ensures state in {BACKOFF, STOP, DIALING, AUTHENTICATING}
      ensures socket != INVALID <==> old(Active(env)) && exists fd :: fd in old(sockets) && Usable(fd, env)
      ensures socket != INVALID ==> FirstUsable(socket, old(sockets), env) && open == {socket}
      ensures waits == if socket == INVALID then old(waits) else 0
      ensures addressCurrent ==
              old(addressCurrent) +
              if (old(sockets) == [] || old(Idle(env))) && old(addressCurrent) < |addresses| then 1 else 0
      ensures state != BACKOFF && socket == INVALID ==>
                sockets == if old(Active(env)) then Survivors(old(sockets), env.broken)
                           else old(sockets) + if addressCurrent > old(addressCurrent) && env.attempt.InProgress?
                                               then [env.attempt.fd] else []
    {
      hide Survivors, FirstIn, Chosen, FirstUsable, WaitAfter;
      var ok := ConnectToAny(env);
      if !ok { state := BACKOFF; } else if Stopped(env) { state := STOP; }
    }

    /** The end of a wait: STOP, or the next wait doubled and the search begun again. */
    method Retry(stop: bool)
      requires Valid() && state == BACKOFF
      modifies this`state, this`backoff, this`waits
      ensures Valid() && open == old(open)
      ensures state == if stop then STOP else RESOLVING
      ensures waits == old(waits) + if stop then 0 else 1
    {
      if stop {
        state := STOP;
      } else {
        backoff := backoff * 2;
        if backoff > backoffMax { backoff := backoffMax; }
        waits := waits + 1;
        state := RESOLVING;
      }
    }

    /** A state stored while nothing is open, or STOP. */
    method Store(s: State)
      requires Valid() && (s == STOP || (s == BACKOFF && sockets == [] && socket == INVALID))
      modifies this`state
      ensures Valid() && state == s
    {
      state := s;
    }

    /** One turn of runRead; `done` when the thread ends. No descriptor leaks before STOP, whatever the system
        answers; when the thread ends, those of the pending attempts stay open and no other. */
    method Turn(env: Env) returns (done: bool)
      requires Valid()
      requires env.attempt.ConnectFails? || env.attempt.InProgress? ==> env.attempt.fd !in open
      modifies this
      ensures Valid() && (done <==> old(state) == STOP)
      ensures done ==> sockets == old(sockets) && open == Elements(sockets) && (open == {} <==> sockets == [])
      ensures state == BACKOFF || state == RESOLVING || state == SOCKET_ERROR ==> open == {}
      ensures env.stopAfter ==> state == STOP
      ensures waits == if old(state) == BACKOFF && !env.stopBefore then old(waits) + 1
                       else if old(state) == DIALING && socket != INVALID then 0 else old(waits)
      ensures old(state) == RESOLVING && !env.stopAfter ==>
                var found := && env.resolved.Found?
                             && Interleave(OfFamily(env.resolved.list, V6), OfFamily(env.resolved.list, V4)) != [];
                state == if !found then BACKOFF else if env.stopBefore then STOP else DIALING
      ensures old(state) == DIALING && !env.stopAfter ==>
                && (state == BACKOFF <==>
                    if old(sockets) == [] then old(addressCurrent) == |addresses|
                    else && !env.stopSelect && !env.selectFails && env.writable == {} && env.attemptDue
                         && old(addressCurrent) == |addresses| && env.timedOut)
                && (state == STOP <==> state != BACKOFF && (env.stopSelect || env.stopBefore))
                && (state == AUTHENTICATING <==> state != BACKOFF && state != STOP && socket != INVALID)
                && (state == DIALING <==> state != BACKOFF && state != STOP && socket == INVALID)
      ensures old(state) == RESOLVING ==>
                && addressCurrent == 0
                && addresses ==
                   if env.resolved.Found?
                   then Interleave(OfFamily(env.resolved.list, V6), OfFamily(env.resolved.list, V4)) else []
      ensures old(state) != RESOLVING ==> addresses == old(addresses)
      ensures old(state) == DIALING ==>
                addressCurrent ==
                old(addressCurrent) +
                if (old(sockets) == [] || old(Idle(env))) && old(addressCurrent) < |addresses| then 1 else 0
      ensures old(state) == DIALING && socket == INVALID && sockets != [] ==>
                sockets == if old(Active(env)) then Survivors(old(sockets), env.broken)
                           else old(sockets) + if addressCurrent > old(addressCurrent) && env.attempt.InProgress?
                                               then [env.attempt.fd] else []
      ensures old(state) != DIALING && old(state) != RESOLVING ==>
                sockets == old(sockets) && addressCurrent == old(addressCurrent)
      ensures old(state) == DIALING ==>
                && (socket != INVALID <==>
                    && !env.stopSelect && !env.selectFails
                    && exists fd :: fd in old(sockets) && fd in env.writable && fd !in env.broken)
                && (socket != INVALID ==> FirstUsable(socket, old(sockets), env) && open == {socket})
      ensures (old(state) == AUTHENTICATING || old(state) == CONNECTED) && !env.stopAfter ==>
                state == if env.received && env.connack then CONNECTED else if env.stopBefore then STOP
                         else if env.received then old(state) else SOCKET_ERROR
      ensures old(state) == BACKOFF && !env.stopAfter ==> state == if env.stopBefore then STOP else RESOLVING
      ensures old(state) == SOCKET_ERROR && !env.stopAfter ==> state == BACKOFF
      ensures state == AUTHENTICATING || state == CONNECTED ==> old(state) == DIALING || socket == old(socket)
    {
      hide Interleave, OfFamily, Survivors, FirstIn, Chosen, FirstUsable, WaitAfter, Tracked;
      done := false;
      match state {
        case RESOLVING =>
          var ok := Resolve(env.resolved, env.stopBefore);
          if !ok { Store(BACKOFF); }
        case DIALING =>
          Dial(env);
        case BACKOFF =>
          Retry(env.stopBefore);
        case AUTHENTICATING =>
          Receive(env);
        case CONNECTED =>
          Receive(env);
        case SOCKET_ERROR =>
          Store(BACKOFF);
        case STOP =>
          Stop();
          done := true;
      }
      if env.stopAfter { Store(STOP); }
    }
  }
}
