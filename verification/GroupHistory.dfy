/** The groups of a server whose trust store keeps growing: ledger, tree and policy together. */
module GroupHistory {
  import opened Outcomes
  import opened Certificates
  import opened TrustState
  import opened SecureChain
  import opened History
  import opened CertificateChain
  import opened CertificateTree
  import opened GroupIds
  import opened GroupPolicy

  /** An event, how many blocks the trust store had applied by then, and the clock reading. */
  datatype Dated = Dated(event: Event, applied: nat, now: nat)

  ghost function StateAt(root: RootCertificate, blocks: seq<Block>, n: nat): StateValue
    requires n <= |blocks|
  {
    After(Start(root), blocks[..n]).state
  }

  /** Events happen in order and never see more of the ledger than there is. */
  predicate Chronological(events: seq<Dated>, length: nat) {
    && (forall i :: 0 <= i < |events| ==> events[i].applied <= length)
    && (forall i, j :: 0 <= i < j < |events| ==> events[i].applied <= events[j].applied)
  }

  ghost function Serve(root: RootCertificate, blocks: seq<Block>, events: seq<Dated>): Groups
    requires Chronological(events, |blocks|)
  {
    if events == [] then Groups(map[], map[])
    else
      var last := events[|events| - 1];
      Handle(StateAt(root, blocks, last.applied), Serve(root, blocks, events[..|events| - 1]), last.event, last.now)
  }

  lemma AddGrows(s: StateValue, signer: SpkiHash, time: nat, tx: Transaction)
    requires CheckTransaction(s, signer, time, tx).Pass? && tx.Add?
    ensures Grew(s, ApplyTransaction(s, tx))
  {
  }

  lemma GrewTransitive(r: StateValue, s: StateValue, t: StateValue)
    requires Grew(r, s) && Grew(s, t)
    ensures Grew(r, t)
  {
    forall k | k in r.certificates ensures t.certificates[k] == r.certificates[k] {
      assert s.certificates[k] == r.certificates[k];
    }
  }

  lemma {:induction false} LedgerGrows(root: RootCertificate, blocks: seq<Block>, clocks: seq<nat>, m: nat, n: nat)
    requires Accepted(Start(root), blocks, clocks) && AddOnly(blocks)
    requires m <= n <= |blocks|
    ensures Grew(StateAt(root, blocks, m), StateAt(root, blocks, n))
  {
    hide CheckSigned;
    if m < n {
      LedgerGrows(root, blocks, clocks, m, n - 1);
      AcceptedAt(Start(root), blocks, clocks, n - 1);
      AfterStep(Start(root), blocks, n - 1);
      hide Accepted;
      hide After;
      var before := After(Start(root), blocks[..n - 1]);
      var b := blocks[n - 1];
      CheckedTransaction(before, b, clocks[n - 1]);
      hide CheckTransaction;
      AddGrows(before.state, b.signer, b.time, b.transaction);
      hide Grew;
      hide ApplyTransaction;
      GrewTransitive(StateAt(root, blocks, m), before.state, StateAt(root, blocks, n));
    }
  }

  lemma GrowthKeepsGroupAt(s: StateValue, t: StateValue, raw: RawId, g: Group)
    requires Grew(s, t) && GroupOkAt(s, raw, g)
    ensures GroupOkAt(t, raw, g)
  {
    hide GroupOk;
    hide Grew;
    GrowthKeepsGroups(s, t, Parse(raw).value, g);
  }

  lemma GrowthKeepsAll(s: StateValue, t: StateValue, v: Groups)
    requires Grew(s, t) && GroupsOk(s, v)
    ensures GroupsOk(t, v)
  {
    hide GroupOkAt;
    forall id | id in v.storage ensures GroupOkAt(t, id, v.storage[id]) {
      GrowthKeepsGroupAt(s, t, id, v.storage[id]);
    }
    forall id | id in v.cache ensures GroupOkAt(t, id, v.cache[id]) {
      GrowthKeepsGroupAt(s, t, id, v.cache[id]);
    }
  }

  /** The event does not merge a commit through another spelling of a group's id, unless the MLS layer
      makes a group of it that is in order anyway. */
  ghost predicate WellDirected(root: RootCertificate, blocks: seq<Block>, events: seq<Dated>, i: nat)
    requires Chronological(events, |blocks|) && i < |events|
  {
    var e := events[i];
    e.event.HasMessage() && !Canonical(e.event.id)
      && Merges(StateAt(root, blocks, e.applied), Serve(root, blocks, events[..i]), e.event, e.now) ==>
      GroupOkAt(StateAt(root, blocks, e.applied), Target(e.event.id), e.event.message.elsewhere)
  }

  lemma {:induction false} SameDirection(root: RootCertificate, blocks: seq<Block>, events: seq<Dated>, n: nat, i: nat)
    requires Chronological(events, |blocks|) && i < n <= |events|
    ensures WellDirected(root, blocks, events[..n], i) <==> WellDirected(root, blocks, events, i)
  {
    hide StateAt;
    hide Serve;
    hide GroupOkAt;
    hide Merges;
    assert events[..n][..i] == events[..i];
  }

  lemma {:induction false} LastEventKeepsGroupsOk(root: RootCertificate, blocks: seq<Block>, events: seq<Dated>)
    requires Chronological(events, |blocks|) && events != []
    requires WellDirected(root, blocks, events, |events| - 1)
    requires var e := events[|events| - 1];
      GroupsOk(StateAt(root, blocks, e.applied), Serve(root, blocks, events[..|events| - 1]))
    ensures GroupsOk(StateAt(root, blocks, events[|events| - 1].applied), Serve(root, blocks, events))
  {
    hide StateAt;
    hide Handle;
    hide GroupsOk;
    hide GroupOkAt;
    hide Merges;
    var e := events[|events| - 1];
    HandleKeepsGroupsOk(StateAt(root, blocks, e.applied), Serve(root, blocks, events[..|events| - 1]), e.event, e.now);
  }

  /** Over any run of group creations, group messages, add messages and restarts, beside any
      accepted run of additions to the trust store, every group the server holds contains all its
      required members, and everybody else in it is a user or a user session, as long as commits are
      not misdirected. In particular it is so when all messages carry canonical group ids. */
  lemma {:induction false} GroupMembership(
    root: RootCertificate, blocks: seq<Block>, clocks: seq<nat>, events: seq<Dated>, n: nat)
    requires Accepted(Start(root), blocks, clocks) && AddOnly(blocks)
    requires Chronological(events, |blocks|)
    requires n <= |blocks| && forall i :: 0 <= i < |events| ==> events[i].applied <= n
    requires forall i :: 0 <= i < |events| ==> WellDirected(root, blocks, events, i)
    ensures GroupsOk(StateAt(root, blocks, n), Serve(root, blocks, events))
  {
    hide Accepted;
    hide StateAt;
    hide GroupsOk;
    hide WellDirected;
    hide Handle;
    if events == [] {
      NoGroupsOk(StateAt(root, blocks, n));
    } else {
      var front := events[..|events| - 1];
      var m := events[|events| - 1].applied;
      hide Serve;
      forall i | 0 <= i < |front| ensures WellDirected(root, blocks, front, i) {
        SameDirection(root, blocks, events, |front|, i);
      }
      GroupMembership(root, blocks, clocks, front, m);
      LastEventKeepsGroupsOk(root, blocks, events);
      LedgerGrows(root, blocks, clocks, m, n);
      GrowthKeepsAll(StateAt(root, blocks, m), StateAt(root, blocks, n), Serve(root, blocks, events));
    }
  }

  /** Canonical ids direct every commit to the group it was staged on. */
  lemma CanonicalIdsAreWellDirected(root: RootCertificate, blocks: seq<Block>, events: seq<Dated>, i: nat)
    requires Chronological(events, |blocks|) && i < |events|
    requires events[i].event.HasMessage() ==> Canonical(events[i].event.id)
    ensures WellDirected(root, blocks, events, i)
  {
  }

  /** A misdirected commit does end the order: right after the first one the groups are not in order. */
  lemma {:induction false} MisdirectionEndsMembership(root: RootCertificate, blocks: seq<Block>, clocks: seq<nat>, events: seq<Dated>)
    requires Accepted(Start(root), blocks, clocks) && AddOnly(blocks)
    requires Chronological(events, |blocks|) && events != []
    requires forall i :: 0 <= i < |events| - 1 ==> WellDirected(root, blocks, events, i)
    requires !WellDirected(root, blocks, events, |events| - 1)
    ensures !GroupsOk(StateAt(root, blocks, events[|events| - 1].applied), Serve(root, blocks, events))
  {
    hide Accepted;
    hide StateAt;
    hide Handle;
    hide GroupsOk;
    hide GroupOkAt;
    hide Merges;
    var n := |events| - 1;
    var last, front := events[n], events[..n];
    forall i | 0 <= i < n ensures WellDirected(root, blocks, front, i) {
      SameDirection(root, blocks, events, n, i);
    }
    hide AddOnly;
    GroupMembership(root, blocks, clocks, front, last.applied);
    HandleKeepsGroupsOk(StateAt(root, blocks, last.applied), Serve(root, blocks, front), last.event, last.now);
  }

  const AGENT: Certificate := Certificate(Agent, 1, 0, 0, 365 * DAY, 0, [], [])

  /** An agent's path and required members in a ledger that holds it and the root. */
  lemma {:induction false} SampleMembers(s: StateValue)
    requires s.root == SampleRoot() && s.certificates == map[0 := SampleRoot(), 1 := AGENT]
    ensures RequiredMembers(s, DeviceGroup(1), 0) == Ok({0, 1})
    ensures PathMembers(s, DeviceGroup(1)) == Some({0, 1})
    ensures LookUp(s, 1, 0) == Ok(AGENT)
  {
    var path: seq<Certificate> := [SampleRoot(), AGENT];
    assert LinkedUp(s.certificates, path, 1);
    CompletionExact(s.certificates, AGENT, path);
    VerifyExact(path, s.root, 0);
    hide Complete;
    hide VerifyChain;
    assert path[0] in path && path[1] in path;
    assert Keys(path) == {0, 1};
  }

  function SampleRaw(): RawId {
    [Text("device"), Hex(1, 0), Text("x")]
  }

  function SampleEvents(): seq<Dated> {
    [Dated(NewGroup(ToRaw(DeviceGroup(1)), SampleGroup()), 1, 0),
     Dated(NewGroup(SampleRaw(), SampleGroup()), 1, 0),
     Dated(GroupMessage(SampleRaw(), Staged(Commit([], [], []), map[])), 1, 0)]
  }

  lemma SampleLedger() returns (blocks: seq<Block>, clocks: seq<nat>)
    ensures |blocks| == 1 && Accepted(Start(SampleRoot()), blocks, clocks) && AddOnly(blocks)
    ensures StateAt(SampleRoot(), blocks, 1) == StateValue(SampleRoot(), map[0 := SampleRoot(), 1 := AGENT])
  {
    hide CheckSigned;
    var c := Start(SampleRoot());
    assert CheckTransaction(c.state, 0, 0, Add(AGENT)).Pass?;
    var b := PackageNext(c, Add(AGENT), 0, 0);
    blocks, clocks := [] + [b], [] + [0];
    AcceptedStep(c, [], [], b, 0);
    assert blocks[..1] == blocks;
    assert After(c, blocks) == ApplyBlock(c, b);
  }

  function SampleGroup(): Group {
    map[0 := 0, 1 := 1]
  }

  lemma {:induction false} SampleCreation(s: StateValue)
    requires RequiredMembers(s, DeviceGroup(1), 0) == Ok({0, 1}) && LookUp(s, 1, 0) == Ok(AGENT)
    ensures Creatable(s, ToRaw(DeviceGroup(1)), SampleGroup(), 0) && Creatable(s, SampleRaw(), SampleGroup(), 0)
  {
    hide RequiredMembers;
    hide LookUp;
    assert Members(SampleGroup()) == {0, 1} by {
      assert SampleGroup()[0] == 0 && SampleGroup()[1] == 1;
    }
  }

  lemma {:induction false} SampleServed(blocks: seq<Block>)
    requires |blocks| == 1
    requires var s := StateAt(SampleRoot(), blocks, 1);
      RequiredMembers(s, DeviceGroup(1), 0) == Ok({0, 1}) && LookUp(s, 1, 0) == Ok(AGENT)
    ensures Chronological(SampleEvents(), 1)
    ensures Serve(SampleRoot(), blocks, SampleEvents()[..2]) ==
      Groups(map[ToRaw(DeviceGroup(1)) := SampleGroup(), SampleRaw() := SampleGroup()], map[])
  {
    SampleCreation(StateAt(SampleRoot(), blocks, 1));
    hide StateAt;
    hide Creatable;
    hide RequiredMembers;
    hide LookUp;
    var events := SampleEvents();
    assert events[..2][..1] == events[..1] && events[..1][..0] == [];
    assert Serve(SampleRoot(), blocks, events[..1]) == Groups(map[ToRaw(DeviceGroup(1)) := SampleGroup()], map[]);
  }

  /** It does happen: an agent's group is created under both spellings of its id, and an empty commit is
      sent to the longer one. */
  lemma {:induction false} MisdirectionHappens() returns (blocks: seq<Block>, clocks: seq<nat>)
    ensures Accepted(Start(SampleRoot()), blocks, clocks) && AddOnly(blocks)
    ensures Chronological(SampleEvents(), |blocks|)
    ensures WellDirected(SampleRoot(), blocks, SampleEvents(), 0) && WellDirected(SampleRoot(), blocks, SampleEvents(), 1)
    ensures !WellDirected(SampleRoot(), blocks, SampleEvents(), 2)
    ensures !GroupsOk(StateAt(SampleRoot(), blocks, 1), Serve(SampleRoot(), blocks, SampleEvents()))
  {
    blocks, clocks := SampleLedger();
    hide Accepted;
    hide StateAt;
    SampleMembers(StateAt(SampleRoot(), blocks, 1));
    SampleServed(blocks);
    SampleMisdirected(blocks);
    MisdirectionEndsMembership(SampleRoot(), blocks, clocks, SampleEvents());
  }

  lemma {:induction false} SampleMisdirected(blocks: seq<Block>)
    requires |blocks| == 1 && Chronological(SampleEvents(), 1)
    requires RequiredMembers(StateAt(SampleRoot(), blocks, 1), DeviceGroup(1), 0) == Ok({0, 1})
    requires PathMembers(StateAt(SampleRoot(), blocks, 1), DeviceGroup(1)) == Some({0, 1})
    requires Serve(SampleRoot(), blocks, SampleEvents()[..2]) ==
      Groups(map[ToRaw(DeviceGroup(1)) := SampleGroup(), SampleRaw() := SampleGroup()], map[])
    ensures !WellDirected(SampleRoot(), blocks, SampleEvents(), 2)
  {
    hide StateAt;
    hide RequiredMembers;
    hide PathMembers;
    hide Serve;
    var s, v, e := StateAt(SampleRoot(), blocks, 1), Serve(SampleRoot(), blocks, SampleEvents()[..2]), SampleEvents()[2];
    assert Parse(SampleRaw()) == Some(DeviceGroup(1)) && !Canonical(SampleRaw());
    assert ToRaw(DeviceGroup(1)) in v.storage && SampleRaw() in v.storage;
    assert Merges(s, v, e.event, 0);
    assert 0 !in Members(map[]);
    assert !GroupOkAt(s, ToRaw(DeviceGroup(1)), map[]);
  }

  lemma NoGroupsOk(s: StateValue)
    ensures GroupsOk(s, Groups(map[], map[]))
  {
  }

  // ---------------------------------------------------------------------------------------
  // What changes a group
  // ---------------------------------------------------------------------------------------

  /** The groups before the i-th event of a run. */
  ghost function Before(root: RootCertificate, blocks: seq<Block>, events: seq<Dated>, i: nat): Groups
    requires Chronological(events, |blocks|) && i <= |events|
  {
    Serve(root, blocks, events[..i])
  }

  /** The event creates a group that is in the cache. */
  ghost predicate CreatesAgain(root: RootCertificate, blocks: seq<Block>, events: seq<Dated>, i: nat, id: RawId)
    requires Chronological(events, |blocks|) && i < |events|
  {
    var e := events[i];
    && e.event.NewGroup? && e.event.id == id
    && id in Before(root, blocks, events, i).cache
    && Creatable(StateAt(root, blocks, e.applied), id, e.event.group, e.now)
  }

  /** The event is an allowed creation of a group that is not in the cache, or a merge into it. */
  ghost predicate Changes(root: RootCertificate, blocks: seq<Block>, events: seq<Dated>, i: nat, id: RawId)
    requires Chronological(events, |blocks|) && i < |events|
  {
    var e := events[i];
    var s := StateAt(root, blocks, e.applied);
    var v := Before(root, blocks, events, i);
    match e.event
    case Restart => false
    case NewGroup(x, g) => x == id && id !in v.cache && Creatable(s, id, g, e.now)
    case _ => Target(e.event.id) == id && Merges(s, v, e.event, e.now)
  }

  lemma SamePast(root: RootCertificate, blocks: seq<Block>, events: seq<Dated>, n: nat, i: nat, id: RawId)
    requires Chronological(events, |blocks|) && i < n <= |events|
    ensures Before(root, blocks, events[..n], i) == Before(root, blocks, events, i)
    ensures CreatesAgain(root, blocks, events[..n], i, id) <==> CreatesAgain(root, blocks, events, i, id)
    ensures Changes(root, blocks, events[..n], i, id) <==> Changes(root, blocks, events, i, id)
  {
    assert events[..n][..i] == events[..i];
    hide Serve;
    hide StateAt;
    hide Creatable;
    hide Merges;
  }

  /** What one event leaves of the relation between cache and storage. */
  lemma CacheFollowsStorage(s: StateValue, v: Groups, event: Event, now: nat, id: RawId)
    requires id in v.cache ==> id in v.storage
    ensures var w := Handle(s, v, event, now);
      id in w.cache ==>
        && id in w.storage
        && (w.cache[id] == w.storage[id]
          || (id in v.cache && (v.cache[id] != v.storage[id] || (event.NewGroup? && event.id == id && Creatable(s, id, event.group, now)))))
  {
    hide Creatable;
    hide CommitAllowed;
    hide Consults;
    hide Merged;
    if event.HasMessage() {
      hide Merges;
      hide Considered;
      assert id in LookedAt(s, v, event, now).cache ==>
        id in v.storage && LookedAt(s, v, event, now).cache[id] == if id in v.cache then v.cache[id] else v.storage[id];
      assert LookedAt(s, v, event, now).storage == v.storage;
    }
  }

  /** A cached group is always stored too, and as it is stored, unless it was created again. */
  lemma {:induction false} ShadowedOnlyByRecreation(root: RootCertificate, blocks: seq<Block>, events: seq<Dated>, id: RawId)
    requires Chronological(events, |blocks|)
    ensures
      var v := Serve(root, blocks, events);
      id in v.cache ==>
        && id in v.storage
        && (v.cache[id] == v.storage[id] || exists i :: 0 <= i < |events| && CreatesAgain(root, blocks, events, i, id))
  {
    if events != [] {
      var n := |events| - 1;
      var e := events[n];
      var before := Serve(root, blocks, events[..n]);
      ShadowedOnlyByRecreation(root, blocks, events[..n], id);
      CacheFollowsStorage(StateAt(root, blocks, e.applied), before, e.event, e.now, id);
      hide Handle;
      hide StateAt;
      hide Creatable;
      if i :| 0 <= i < n && CreatesAgain(root, blocks, events[..n], i, id) {
        SamePast(root, blocks, events, n, i, id);
      } else if id in before.cache && e.event.NewGroup? && e.event.id == id
        && Creatable(StateAt(root, blocks, e.applied), id, e.event.group, e.now)
      {
        assert CreatesAgain(root, blocks, events, n, id);
      }
    }
  }

  lemma OneEventKeeps(s: StateValue, v: Groups, event: Event, now: nat, id: RawId)
    requires id in v.cache ==> id in v.storage && v.cache[id] == v.storage[id]
    requires event.NewGroup? && event.id == id ==> !Creatable(s, id, event.group, now)
    requires event.HasMessage() && Target(event.id) == id ==> !Merges(s, v, event, now)
    ensures Held(Handle(s, v, event, now), id) == Held(v, id)
  {
    hide Creatable;
    if event.HasMessage() {
      if Merges(s, v, event, now) {
        MergedCommitIsKept(s, v, event, now, id);
      } else {
        RefusedCommitChangesNothing(s, v, event, now, id);
      }
      hide Handle;
    }
  }

  /** Over any stretch of a run in which nothing is merged into a group, it is not created, and it was
      never created again while in use, the group in force stays the same: refused commits, events of
      other groups and restarts do not touch it. */
  lemma {:induction false} GroupsChangeOnlyByPolicy(
    root: RootCertificate, blocks: seq<Block>, events: seq<Dated>, m: nat, id: RawId)
    requires Chronological(events, |blocks|) && m <= |events|
    requires forall i :: 0 <= i < |events| ==> !CreatesAgain(root, blocks, events, i, id)
    requires forall i :: m <= i < |events| ==> !Changes(root, blocks, events, i, id)
    ensures Held(Serve(root, blocks, events), id) == Held(Before(root, blocks, events, m), id)
  {
    if m == |events| {
      assert events[..m] == events;
    } else {
      var n := |events| - 1;
      forall i | 0 <= i < n
        ensures !CreatesAgain(root, blocks, events[..n], i, id) && (m <= i ==> !Changes(root, blocks, events[..n], i, id))
      {
        SamePast(root, blocks, events, n, i, id);
      }
      GroupsChangeOnlyByPolicy(root, blocks, events[..n], m, id);
      assert events[..n][..m] == events[..m];
      ShadowedOnlyByRecreation(root, blocks, events[..n], id);
      assert !CreatesAgain(root, blocks, events, n, id) && !Changes(root, blocks, events, n, id);
      hide StateAt;
      hide Creatable;
      hide Merges;
      hide Handle;
      var e := events[n];
      OneEventKeeps(StateAt(root, blocks, e.applied), Serve(root, blocks, events[..n]), e.event, e.now, id);
    }
  }
}
