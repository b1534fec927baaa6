/**
 The server's policy for MLS groups: which groups it lets be created, which commits it merges.
 A group is its membership, a map from leaf index to the member's key hash; a commit is its
 remove and add proposals (sections 12.1.1 and 12.1.3 of RFC 9420).
 */
module GroupPolicy {
  import opened Outcomes
  import opened Certificates
  import opened TrustState
  import opened CertificateChain
  import opened CertificateTree
  import Encoding
  import opened GroupIds

  type Group = map<nat, SpkiHash>

  datatype Sender = Member(leaf: nat) | Outsider

  datatype Removal = Removal(sender: Sender, removed: nat)

  /** `keyMatches`: the key package is well formed and signed with the certificate's key. */
  datatype Addition = Addition(sender: Sender, member: SpkiHash, keyMatches: bool)

  datatype Commit = Commit(credentials: seq<SpkiHash>, removals: seq<Removal>, additions: seq<Addition>)

  /** What the MLS layer makes of a message for a group it knows. `elsewhere` is what it makes of merging
      a staged commit into another group than the one it was staged on, which is left open. */
  datatype Message = Private | Staged(commit: Commit, elsewhere: Group) | Rejected

  datatype PolicyError =
    | UnknownGroup
    | UnexpectedGroup
    | UnreadableGroupId
    | InvalidGroupId
    | AgentNotFound
    | IncompleteChain(incomplete: CompleteError)
    | InvalidChain(chain: VerifyChainError)
    | Unverified(reason: VerifyError)
    | WrongMembers
    | NotFromAMember
    | NotInGroup
    | EditNotAllowed
    | RequiredMember
    | BadKeyPackage
    | UnexpectedCertificateType
    | MessageNotAllowed

  function Members(g: Group): set<SpkiHash> {
    set leaf | leaf in g :: g[leaf]
  }

  // ---------------------------------------------------------------------------------------
  // Required members
  // ---------------------------------------------------------------------------------------

  function AgentChain(s: StateValue, agent: SpkiHash, now: nat): Result<seq<Certificate>, PolicyError> {
    if agent !in s.certificates then Err(AgentNotFound)
    else
      match Complete(s.certificates, [s.certificates[agent]])
      case Err(e) => Err(IncompleteChain(e))
      case Ok(chain) =>
        match VerifyChain(chain, s.root, now)
        case Err(e) => Err(InvalidChain(e))
        case Ok(verified) => Ok(verified)
  }

  /** The agent's whole chain, for the meta group without the agent itself. */
  function RequiredMembers(s: StateValue, id: GroupId, now: nat): Result<set<SpkiHash>, PolicyError> {
    match id
    case GlobalGroup => Ok({s.root.spkiHash})
    case DeviceGroup(agent) =>
      (match AgentChain(s, agent, now)
       case Err(e) => Err(e)
       case Ok(chain) => Ok(Keys(chain)))
    case DeviceMetaGroup(agent) =>
      (match AgentChain(s, agent, now)
       case Err(e) => Err(e)
       case Ok(chain) => Ok(Keys(if chain == [] then [] else chain[..|chain| - 1])))
  }

  /** The same members without regard to time: they are fixed by the agent's issuer path. */
  function PathMembers(s: StateValue, id: GroupId): Option<set<SpkiHash>> {
    if id.GlobalGroup? then Some({s.root.spkiHash})
    else if id.agent !in s.certificates then None
    else
      match Complete(s.certificates, [s.certificates[id.agent]])
      case Err(_) => None
      case Ok(chain) => Some(Keys(if id.DeviceMetaGroup? && chain != [] then chain[..|chain| - 1] else chain))
  }

  lemma RequiredArePathMembers(s: StateValue, id: GroupId, now: nat)
    requires RequiredMembers(s, id, now).Ok?
    ensures PathMembers(s, id) == Some(RequiredMembers(s, id, now).value)
  {
    if !id.GlobalGroup? {
      VerifyExact(Complete(s.certificates, [s.certificates[id.agent]]).value, s.root, now);
    }
  }

  /** An element of an issuer path is stored under its key, and its issuer comes before it. */
  lemma PathElement(s: StateValue, chain: seq<Certificate>, agent: SpkiHash, i: nat)
    requires KeyConsistent(s) && agent in s.certificates && 0 < i < |chain|
    requires IssuerPath(s.certificates, chain, s.certificates[agent])
    ensures chain[i].spkiHash in s.certificates && s.certificates[chain[i].spkiHash] == chain[i]
    ensures chain[i].issuer == chain[i - 1].spkiHash
  {
    assert LinkedUp(s.certificates, chain, i);
    if i < |chain| - 1 {
      assert LinkedUp(s.certificates, chain, i + 1);
    }
  }

  lemma KeyOf(chain: seq<Certificate>, i: nat)
    requires i < |chain|
    ensures chain[i].spkiHash in Keys(chain)
  {
    assert chain[i] in chain;
  }

  lemma FrontKeys(chain: seq<Certificate>)
    requires chain != []
    requires forall i, j :: 0 <= i < j < |chain| ==> chain[i].spkiHash != chain[j].spkiHash
    ensures Keys(chain[..|chain| - 1]) == Keys(chain) - {chain[|chain| - 1].spkiHash}
  {
    var n := |chain| - 1;
    assert chain == chain[..n] + [chain[n]];
    assert forall c :: c in chain <==> c in chain[..n] || c == chain[n];
    assert chain[n].spkiHash !in Keys(chain[..n]);
  }

  lemma PathKeys(s: StateValue, chain: seq<Certificate>, agent: SpkiHash)
    requires KeyConsistent(s) && agent in s.certificates
    requires IssuerPath(s.certificates, chain, s.certificates[agent]) && chain[0] == s.root
    ensures Keys(chain[..|chain| - 1]) == Keys(chain) - {agent}
    ensures agent in Keys(chain) && s.root.spkiHash in Keys(chain)
    ensures forall k :: k in Keys(chain) && k != s.root.spkiHash ==> k in s.certificates && s.certificates[k].issuer in Keys(chain)
  {
    FrontKeys(chain);
    KeyOf(chain, |chain| - 1);
    KeyOf(chain, 0);
    forall i | 0 < i < |chain|
      ensures chain[i].spkiHash in s.certificates && s.certificates[chain[i].spkiHash].issuer in Keys(chain)
    {
      PathElement(s, chain, agent, i);
      KeyOf(chain, i - 1);
    }
    hide IssuerPath;
  }

  /** The members an agent's groups require: the agent, the root, and with everybody who is not the
      root its issuer. The meta group requires the same without the agent. */
  lemma RequiredMembersOfAgent(s: StateValue, agent: SpkiHash, now: nat)
    requires KeyConsistent(s)
    ensures RequiredMembers(s, DeviceGroup(agent), now).Ok? <==> RequiredMembers(s, DeviceMetaGroup(agent), now).Ok?
    ensures RequiredMembers(s, DeviceGroup(agent), now).Ok? ==>
      var required := RequiredMembers(s, DeviceGroup(agent), now).value;
      && RequiredMembers(s, DeviceMetaGroup(agent), now).value == required - {agent}
      && agent in required && s.root.spkiHash in required
      && forall k :: k in required && k != s.root.spkiHash ==> k in s.certificates && s.certificates[k].issuer in required
  {
    if RequiredMembers(s, DeviceGroup(agent), now).Ok? {
      var leaf := s.certificates[agent];
      var chain := Complete(s.certificates, [leaf]).value;
      VerifyExact(chain, s.root, now);
      CompletionExact(s.certificates, leaf, chain);
      PathKeys(s, chain, agent);
      hide Complete;
      hide VerifyChain;
      hide IssuerPath;
      hide Keys;
    }
  }

  // ---------------------------------------------------------------------------------------
  // Commits
  // ---------------------------------------------------------------------------------------

  predicate MayEdit(kind: CertificateType) {
    kind.Root? || kind.User? || kind.UserSession?
  }

  predicate MayBeAdded(kind: CertificateType) {
    kind.User? || kind.UserSession?
  }

  predicate SenderAllowed(s: StateValue, g: Group, sender: Sender, now: nat) {
    && sender.Member?
    && sender.leaf in g
    && LookUp(s, g[sender.leaf], now).Ok?
    && MayEdit(LookUp(s, g[sender.leaf], now).value.kind)
  }

  predicate RemovalAllowed(s: StateValue, g: Group, required: set<SpkiHash>, r: Removal, now: nat) {
    SenderAllowed(s, g, r.sender, now) && r.removed in g && g[r.removed] !in required
  }

  predicate AdditionAllowed(s: StateValue, g: Group, a: Addition, now: nat) {
    && SenderAllowed(s, g, a.sender, now)
    && LookUp(s, a.member, now).Ok?
    && a.keyMatches
    && MayBeAdded(LookUp(s, a.member, now).value.kind)
  }

  predicate CommitAllowed(s: StateValue, id: GroupId, g: Group, commit: Commit, now: nat) {
    && (forall c :: c in commit.credentials ==> LookUp(s, c, now).Ok?)
    && RequiredMembers(s, id, now).Ok?
    && (forall r :: r in commit.removals ==> RemovalAllowed(s, g, RequiredMembers(s, id, now).value, r, now))
    && (forall a :: a in commit.additions ==> AdditionAllowed(s, g, a, now))
  }

  method CheckSender(s: StateValue, g: Group, sender: Sender, now: nat) returns (r: Outcome<PolicyError>)
    ensures r.Pass? <==> SenderAllowed(s, g, sender, now)
  {
    if !sender.Member? {
      return Fail(NotFromAMember);
    }
    if sender.leaf !in g {
      return Fail(NotInGroup);
    }
    var looked := LookUp(s, g[sender.leaf], now);
    if looked.Err? {
      return Fail(Unverified(looked.error));
    }
    return if MayEdit(looked.value.kind) then Pass else Fail(EditNotAllowed);
  }

  /** `check_commit`: walks the credentials, the removals and the additions, and stops at the
      first one that is not allowed. */
  method CheckCommit(s: StateValue, id: GroupId, g: Group, commit: Commit, now: nat) returns (r: Outcome<PolicyError>)
    ensures r.Pass? <==> CommitAllowed(s, id, g, commit, now)
  {
    hide RequiredMembers;
    for i := 0 to |commit.credentials|
      invariant forall j :: 0 <= j < i ==> LookUp(s, commit.credentials[j], now).Ok?
    {
      assert commit.credentials[i] in commit.credentials;
      var looked := LookUp(s, commit.credentials[i], now);
      if looked.Err? {
        return Fail(Unverified(looked.error));
      }
    }
    var required := RequiredMembers(s, id, now);
    if required.Err? {
      return Fail(required.error);
    }
    for i := 0 to |commit.removals|
      invariant forall j :: 0 <= j < i ==> RemovalAllowed(s, g, required.value, commit.removals[j], now)
    {
      var removal := commit.removals[i];
      assert removal in commit.removals;
      var sender := CheckSender(s, g, removal.sender, now);
      if sender.Fail? {
        return sender;
      }
      if removal.removed !in g {
        return Fail(NotInGroup);
      }
      if g[removal.removed] in required.value {
        return Fail(RequiredMember);
      }
    }
    for i := 0 to |commit.additions|
      invariant forall j :: 0 <= j < i ==> AdditionAllowed(s, g, commit.additions[j], now)
    {
      var addition := commit.additions[i];
      assert addition in commit.additions;
      var sender := CheckSender(s, g, addition.sender, now);
      if sender.Fail? {
        return sender;
      }
      var looked := LookUp(s, addition.member, now);
      if looked.Err? {
        return Fail(Unverified(looked.error));
      }
      if !addition.keyMatches {
        return Fail(BadKeyPackage);
      }
      if !MayBeAdded(looked.value.kind) {
        return Fail(UnexpectedCertificateType);
      }
    }
    return Pass;
  }

  /** The smallest leaf index that is not in use. */
  function FreeLeaf(g: Group, from: nat): (leaf: nat)
    requires forall i :: 0 <= i < from ==> i in g
    ensures leaf !in g && forall i :: 0 <= i < leaf ==> i in g
    decreases |g| - from
  {
    if from !in g then from
    else
      InitialSegment(g, from + 1);
      FreeLeaf(g, from + 1)
  }

  function Below(n: nat): (r: set<nat>)
    ensures forall i :: i in r <==> 0 <= i < n
    ensures |r| == n
  {
    if n == 0 then {} else Below(n - 1) + {n - 1}
  }

  lemma InitialSegment(g: Group, n: nat)
    requires forall i :: 0 <= i < n ==> i in g
    ensures n <= |g|
  {
    assert Below(n) <= g.Keys;
    SubsetSize(Below(n), g.Keys);
  }

  lemma SubsetSize(a: set<nat>, b: set<nat>)
    requires a <= b
    ensures |a| <= |b|
  {
    assert b == a + (b - a);
  }

  function AddMembers(g: Group, additions: seq<Addition>): Group {
    if additions == [] then g
    else
      var h := AddMembers(g, additions[..|additions| - 1]);
      h[FreeLeaf(h, 0) := additions[|additions| - 1].member]
  }

  function RemovedLeaves(removals: seq<Removal>): set<nat> {
    set r | r in removals :: r.removed
  }

  /** Removals blank their leaves, additions fill the leftmost blank one. */
  function Merge(g: Group, commit: Commit): Group {
    AddMembers(g - RemovedLeaves(commit.removals), commit.additions)
  }

  lemma {:induction false} AddMembersKeeps(g: Group, additions: seq<Addition>)
    ensures forall leaf :: leaf in g ==> leaf in AddMembers(g, additions) && AddMembers(g, additions)[leaf] == g[leaf]
    ensures forall m :: m in Members(AddMembers(g, additions)) ==>
      m in Members(g) || exists a :: a in additions && a.member == m
  {
    if additions != [] {
      var front, last := additions[..|additions| - 1], additions[|additions| - 1];
      AddMembersKeeps(g, front);
      var h := AddMembers(g, front);
      assert forall m :: m in Members(h[FreeLeaf(h, 0) := last.member]) ==> m in Members(h) || m == last.member;
      assert last in additions;
      assert forall a :: a in front ==> a in additions;
    }
  }

  function Added(additions: seq<Addition>): (r: seq<SpkiHash>)
    ensures |r| == |additions|
    ensures forall i :: 0 <= i < |r| ==> r[i] == additions[i].member
  {
    seq(|additions|, i requires 0 <= i < |additions| => additions[i].member)
  }

  lemma {:induction false} AddedArePresent(g: Group, additions: seq<Addition>, i: nat)
    requires i < |additions|
    ensures additions[i].member in Members(AddMembers(g, additions))
  {
    var n := |additions| - 1;
    var h := AddMembers(g, additions[..n]);
    assert AddMembers(g, additions)[FreeLeaf(h, 0)] == additions[n].member;
    if i < n {
      AddedArePresent(g, additions[..n], i);
      var leaf :| leaf in h && h[leaf] == additions[i].member;
      assert AddMembers(g, additions)[leaf] == h[leaf];
    }
  }

  /** A merge admits every member it adds. */
  lemma AddedAreMembers(g: Group, commit: Commit)
    ensures forall m :: m in Added(commit.additions) ==> m in Members(Merge(g, commit))
  {
    forall i | 0 <= i < |commit.additions| ensures commit.additions[i].member in Members(Merge(g, commit)) {
      AddedArePresent(g - RemovedLeaves(commit.removals), commit.additions, i);
    }
  }

  lemma {:induction false} AddMembersExact(g: Group, additions: seq<Addition>)
    ensures |AddMembers(g, additions)| == |g| + |additions|
    ensures forall leaf :: leaf in AddMembers(g, additions) && leaf !in g ==>
      AddMembers(g, additions)[leaf] in Added(additions)
  {
    if additions != [] {
      var n := |additions| - 1;
      AddMembersExact(g, additions[..n]);
      var h := AddMembers(g, additions[..n]);
      var free := FreeLeaf(h, 0);
      assert AddMembers(g, additions).Keys == h.Keys + {free};
      assert Added(additions)[n] == additions[n].member;
      assert forall m :: m in Added(additions[..n]) ==> m in Added(additions);
    }
  }

  /** The i-th added member comes to the i-th of an increasing list of leaves, each of which was the
      leftmost free one. */
  ghost predicate FilledInOrder(before: Group, after: Group, additions: seq<Addition>, leaves: seq<nat>) {
    && |leaves| == |additions|
    && Encoding.Ascending(leaves)
    && forall i :: 0 <= i < |leaves| ==>
      && leaves[i] !in before && leaves[i] in after && after[leaves[i]] == additions[i].member
      && forall j :: 0 <= j < leaves[i] ==> j in after
  }

  lemma {:induction false} AddMembersInOrder(g: Group, additions: seq<Addition>) returns (leaves: seq<nat>)
    ensures FilledInOrder(g, AddMembers(g, additions), additions, leaves)
  {
    if additions == [] {
      leaves := [];
    } else {
      var n := |additions| - 1;
      var front := AddMembersInOrder(g, additions[..n]);
      var h := AddMembers(g, additions[..n]);
      AddMembersKeeps(g, additions[..n]);
      var free := FreeLeaf(h, 0);
      leaves := front + [free];
      forall i | 0 <= i < n ensures front[i] < free {
        assert front[i] in h;
        assert free !in h && forall j :: 0 <= j < front[i] ==> j in h;
      }
    }
  }

  /** Members are added where section 12.1.1 of RFC 9420 says: to the leftmost leaves that are free once the
      removals are done, in the order of the proposals. */
  lemma MergeFillsInOrder(g: Group, commit: Commit) returns (leaves: seq<nat>)
    ensures FilledInOrder(g - RemovedLeaves(commit.removals), Merge(g, commit), commit.additions, leaves)
  {
    leaves := AddMembersInOrder(g - RemovedLeaves(commit.removals), commit.additions);
  }

  /** A merge touches only the leaves it has to: whoever is not removed stays in place, each
      removed leaf is vacated, and as many leaves are filled as members are added, with them. */
  lemma MergeExact(g: Group, commit: Commit)
    ensures forall leaf :: leaf in g && leaf !in RemovedLeaves(commit.removals) ==>
      leaf in Merge(g, commit) && Merge(g, commit)[leaf] == g[leaf]
    ensures forall leaf :: leaf in Merge(g, commit) && (leaf !in g || leaf in RemovedLeaves(commit.removals)) ==>
      Merge(g, commit)[leaf] in Added(commit.additions)
    ensures |Merge(g, commit)| + |g.Keys * RemovedLeaves(commit.removals)| == |g| + |commit.additions|
    ensures forall m :: m in Added(commit.additions) ==> m in Members(Merge(g, commit))
  {
    var kept := g - RemovedLeaves(commit.removals);
    AddMembersKeeps(kept, commit.additions);
    AddMembersExact(kept, commit.additions);
    AddedAreMembers(g, commit);
    assert g.Keys == kept.Keys + g.Keys * RemovedLeaves(commit.removals);
    assert |kept| == |kept.Keys|;
  }

  // ---------------------------------------------------------------------------------------
  // The groups a server holds
  // ---------------------------------------------------------------------------------------

  /** A group in order: nobody required is missing, everybody else is a user or a session. */
  ghost predicate GroupOk(s: StateValue, id: GroupId, g: Group) {
    var required := PathMembers(s, id);
    && required.Some?
    && required.value <= Members(g)
    && forall m :: m in Members(g) && m !in required.value ==> UserOrSession(s, m)
  }

  ghost predicate UserOrSession(s: StateValue, m: SpkiHash) {
    m in s.certificates && MayBeAdded(s.certificates[m].kind)
  }

  /** The trust store grew by certificates under new keys. */
  ghost predicate Grew(s: StateValue, t: StateValue) {
    && t.root == s.root
    && s.certificates.Keys <= t.certificates.Keys
    && forall k {:trigger t.certificates[k]} :: k in s.certificates ==> t.certificates[k] == s.certificates[k]
  }

  lemma GrowthKeepsGroups(s: StateValue, t: StateValue, id: GroupId, g: Group)
    requires Grew(s, t) && GroupOk(s, id, g)
    ensures GroupOk(t, id, g)
  {
    if !id.GlobalGroup? {
      assert t.certificates[id.agent] == s.certificates[id.agent];
      CompletionStable(s.certificates, t.certificates, s.certificates[id.agent]);
    }
    hide Complete;
    forall m | m in Members(g) && m !in PathMembers(t, id).value ensures UserOrSession(t, m) {
      assert UserOrSession(s, m);
      assert t.certificates[m] == s.certificates[m];
    }
  }

  lemma RequiredStay(g: Group, commit: Commit, required: set<SpkiHash>)
    requires required <= Members(g)
    requires forall r :: r in commit.removals ==> r.removed in g && g[r.removed] !in required
    ensures required <= Members(Merge(g, commit))
  {
    var kept := g - RemovedLeaves(commit.removals);
    AddMembersKeeps(kept, commit.additions);
    forall m | m in required ensures m in Members(Merge(g, commit)) {
      var leaf :| leaf in g && g[leaf] == m;
      assert leaf in kept;
      assert Merge(g, commit)[leaf] == m;
    }
  }

  /** A commit that passes the check keeps a group in order. */
  lemma MergeKeepsGroupOk(s: StateValue, id: GroupId, g: Group, commit: Commit, now: nat)
    requires GroupOk(s, id, g) && CommitAllowed(s, id, g, commit, now)
    ensures GroupOk(s, id, Merge(g, commit))
  {
    RequiredArePathMembers(s, id, now);
    hide RequiredMembers;
    hide PathMembers;
    var required := PathMembers(s, id).value;
    RequiredStay(g, commit, required);
    var kept := g - RemovedLeaves(commit.removals);
    AddMembersKeeps(kept, commit.additions);
    forall m | m in Members(Merge(g, commit)) && m !in required ensures UserOrSession(s, m) {
      if m in Members(kept) {
        assert m in Members(g);
      } else {
        var a :| a in commit.additions && a.member == m;
        assert AdditionAllowed(s, g, a, now);
      }
    }
  }

  /** `storage` survives a restart, `cache` does not; a cached group hides the stored one. */
  datatype Groups = Groups(storage: map<RawId, Group>, cache: map<RawId, Group>)

  function Held(v: Groups, id: RawId): Option<Group> {
    if id in v.cache then Some(v.cache[id])
    else if id in v.storage then Some(v.storage[id])
    else None
  }

  datatype Event =
    | NewGroup(id: RawId, group: Group)
    | GroupMessage(id: RawId, message: Message)
    | AddToGroup(id: RawId, message: Message)
    | Restart
  {
    predicate HasMessage() {
      GroupMessage? || AddToGroup?
    }
  }

  /** Whether a new group may be created: a device group of a valid agent, with exactly the
      required members. */
  predicate CreationAllowed(s: StateValue, id: GroupId, g: Group, now: nat) {
    && !id.GlobalGroup?
    && LookUp(s, id.agent, now).Ok?
    && LookUp(s, id.agent, now).value.kind.Agent?
    && RequiredMembers(s, id, now) == Ok(Members(g))
  }

  predicate Creatable(s: StateValue, raw: RawId, g: Group, now: nat) {
    Parse(raw).Some? && CreationAllowed(s, Parse(raw).value, g, now)
  }

  /** Whether the commit in a message is looked at: the addressed group is there, and a group message
      may not add anybody, while an add message may. */
  predicate Considered(v: Groups, event: Event)
    requires event.HasMessage()
  {
    && Held(v, event.id).Some?
    && Parse(event.id).Some?
    && event.message.Staged?
    && (event.GroupMessage? ==> event.message.commit.additions == [])
  }

  /** Senders and removed members are looked up by the parsed id, and so is the group to merge into. */
  predicate Merges(s: StateValue, v: Groups, event: Event, now: nat)
    requires event.HasMessage()
  {
    && Considered(v, event)
    && Held(v, Target(event.id)).Some?
    && CommitAllowed(s, Parse(event.id).value, Held(v, Target(event.id)).value, event.message.commit, now)
  }

  /** Whether the check of a commit, or the merge after it, gets as far as to look that group up. */
  predicate Consults(s: StateValue, id: GroupId, commit: Commit, now: nat) {
    && (forall c :: c in commit.credentials ==> LookUp(s, c, now).Ok?)
    && RequiredMembers(s, id, now).Ok?
    && (if commit.removals != [] then commit.removals[0].sender.Member?
        else commit.additions == [] || commit.additions[0].sender.Member?)
  }

  function Cached(v: Groups, id: RawId): Groups {
    if Held(v, id).Some? then v.(cache := v.cache[id := Held(v, id).value]) else v
  }

  /** What a look at a message leaves in the cache. */
  function LookedAt(s: StateValue, v: Groups, event: Event, now: nat): Groups
    requires event.HasMessage()
  {
    var w := Cached(v, event.id);
    if Considered(v, event) && Consults(s, Parse(event.id).value, event.message.commit, now) then Cached(w, Target(event.id))
    else w
  }

  /** What the group that is merged into becomes. */
  function Merged(v: Groups, event: Event): Group
    requires event.HasMessage() && event.message.Staged? && Held(v, Target(event.id)).Some?
  {
    if Canonical(event.id) then Merge(Held(v, Target(event.id)).value, event.message.commit) else event.message.elsewhere
  }

  function Handle(s: StateValue, v: Groups, event: Event, now: nat): Groups {
    match event
    case Restart => v.(cache := map[])
    case NewGroup(id, g) => if Creatable(s, id, g, now) then v.(storage := v.storage[id := g]) else v
    case _ =>
      var w := LookedAt(s, v, event, now);
      if Merges(s, v, event, now) then
        var target, merged := Target(event.id), Merged(v, event);
        Groups(w.storage[target := merged], w.cache[target := merged])
      else w
  }

  ghost predicate GroupOkAt(s: StateValue, raw: RawId, g: Group) {
    Parse(raw).Some? && GroupOk(s, Parse(raw).value, g)
  }

  ghost predicate GroupsOk(s: StateValue, v: Groups) {
    && (forall id :: id in v.storage ==> GroupOkAt(s, id, v.storage[id]))
    && (forall id :: id in v.cache ==> GroupOkAt(s, id, v.cache[id]))
  }

  /** Caching changes no group in force. */
  lemma CachingKeepsHeld(v: Groups, id: RawId, other: RawId)
    ensures Held(Cached(v, id), other) == Held(v, other)
    ensures Cached(v, id).storage == v.storage
  {
  }

  lemma LookingKeepsHeld(s: StateValue, v: Groups, event: Event, now: nat, id: RawId)
    requires event.HasMessage()
    ensures Held(LookedAt(s, v, event, now), id) == Held(v, id)
    ensures LookedAt(s, v, event, now).storage == v.storage
  {
    hide Consults;
    hide Considered;
    CachingKeepsHeld(v, event.id, id);
    CachingKeepsHeld(Cached(v, event.id), Target(event.id), id);
    hide Cached;
  }

  /** A message whose commit is refused leaves every held group as it was. */
  lemma RefusedCommitChangesNothing(s: StateValue, v: Groups, event: Event, now: nat, id: RawId)
    requires event.HasMessage()
    requires !Merges(s, v, event, now)
    ensures Held(Handle(s, v, event, now), id) == Held(v, id)
  {
    LookingKeepsHeld(s, v, event, now, id);
    hide Merges;
    hide LookedAt;
  }

  /** A merged commit is in force at once and survives a restart; it touches no group but the one that the
      parsed id names. */
  lemma MergedCommitIsKept(s: StateValue, v: Groups, event: Event, now: nat, id: RawId)
    requires event.HasMessage()
    requires Merges(s, v, event, now)
    ensures
      var w := Handle(s, v, event, now);
      && Held(w, Target(event.id)) == Held(Handle(s, w, Restart, now), Target(event.id)) == Some(Merged(v, event))
      && (id != Target(event.id) ==> Held(w, id) == Held(v, id))
  {
    LookingKeepsHeld(s, v, event, now, id);
    hide LookedAt;
    hide Merged;
    hide CommitAllowed;
  }

  lemma NewGroupOk(s: StateValue, id: GroupId, g: Group, now: nat)
    requires CreationAllowed(s, id, g, now)
    ensures GroupOk(s, id, g)
  {
    RequiredArePathMembers(s, id, now);
    hide RequiredMembers;
    hide PathMembers;
  }

  lemma LookingKeepsGroupsOk(s: StateValue, v: Groups, event: Event, now: nat)
    requires event.HasMessage() && GroupsOk(s, v)
    ensures GroupsOk(s, LookedAt(s, v, event, now))
  {
    hide GroupOkAt;
    hide Consults;
    hide Considered;
    var w := Cached(v, event.id);
    assert GroupsOk(s, w);
    assert GroupsOk(s, Cached(w, Target(event.id)));
  }

  /** Through a canonical id, a merge keeps the group it changes in order. */
  lemma CanonicalMergeOk(s: StateValue, v: Groups, event: Event, now: nat)
    requires GroupsOk(s, v) && event.HasMessage() && Merges(s, v, event, now) && Canonical(event.id)
    ensures GroupOkAt(s, Target(event.id), Merged(v, event))
  {
    assert GroupOkAt(s, event.id, Held(v, event.id).value);
    hide GroupsOk;
    hide GroupOk;
    hide Merge;
    hide CommitAllowed;
    MergeKeepsGroupOk(s, Parse(event.id).value, Held(v, event.id).value, event.message.commit, now);
  }

  /** Putting one group into storage and cache. */
  lemma PutGroup(s: StateValue, v: Groups, raw: RawId, g: Group)
    requires GroupsOk(s, v)
    ensures GroupsOk(s, Groups(v.storage[raw := g], v.cache[raw := g])) <==> GroupOkAt(s, raw, g)
    ensures GroupOkAt(s, raw, g) ==> GroupsOk(s, v.(storage := v.storage[raw := g]))
  {
    hide GroupOkAt;
    var w := Groups(v.storage[raw := g], v.cache[raw := g]);
    assert raw in w.storage && w.storage[raw] == g;
  }

  lemma MergeIntoGroups(s: StateValue, v: Groups, event: Event, now: nat)
    requires GroupsOk(s, v) && event.HasMessage() && Merges(s, v, event, now)
    ensures GroupsOk(s, Handle(s, v, event, now)) <==> GroupOkAt(s, Target(event.id), Merged(v, event))
  {
    hide GroupsOk;
    hide GroupOkAt;
    hide CommitAllowed;
    hide LookedAt;
    hide Merged;
    LookingKeepsGroupsOk(s, v, event, now);
    PutGroup(s, LookedAt(s, v, event, now), Target(event.id), Merged(v, event));
  }

  /** One event keeps all held groups in order, exactly if it does not merge a commit through an id in
      another spelling, or the MLS layer happens to make an orderly group of it. */
  lemma HandleKeepsGroupsOk(s: StateValue, v: Groups, event: Event, now: nat)
    requires GroupsOk(s, v)
    ensures GroupsOk(s, Handle(s, v, event, now)) <==>
      (event.HasMessage() && Merges(s, v, event, now) && !Canonical(event.id) ==>
        GroupOkAt(s, Target(event.id), event.message.elsewhere))
  {
    hide GroupOk;
    hide CreationAllowed;
    hide LookedAt;
    if event.NewGroup? {
      if Creatable(s, event.id, event.group, now) {
        NewGroupOk(s, Parse(event.id).value, event.group, now);
        PutGroup(s, v, event.id, event.group);
      }
    } else if event.HasMessage() {
      hide GroupsOk;
      hide GroupOkAt;
      hide CommitAllowed;
      if Merges(s, v, event, now) {
        MergeIntoGroups(s, v, event, now);
        if Canonical(event.id) {
          CanonicalMergeOk(s, v, event, now);
        }
      } else {
        LookingKeepsGroupsOk(s, v, event, now);
      }
    }
  }

  /** A commit that is addressed to a group by another spelling of its id never reaches that group: it
      goes to the group under the server's own spelling, as whatever the MLS layer makes of it there. */
  lemma MisdirectedCommit(s: StateValue, v: Groups, event: Event, now: nat)
    requires event.HasMessage() && Merges(s, v, event, now) && !Canonical(event.id)
    ensures
      var w := Handle(s, v, event, now);
      && Held(w, event.id) == Held(v, event.id)
      && Held(w, Target(event.id)) == Some(event.message.elsewhere)
  {
    MergedCommitIsKept(s, v, event, now, event.id);
    hide Merges;
    hide Handle;
  }

  /** Creating a group again while it is cached is accepted but has no effect on the group in use
      until the server restarts. */
  lemma RecreatedGroupIsShadowed(s: StateValue, v: Groups, id: RawId, g: Group, now: nat)
    requires Creatable(s, id, g, now) && id in v.cache
    ensures
      var w := Handle(s, v, NewGroup(id, g), now);
      Held(w, id) == Some(v.cache[id]) && Held(Handle(s, w, Restart, now), id) == Some(g)
  {
    hide Creatable;
  }

  // ---------------------------------------------------------------------------------------
  // The server object
  // ---------------------------------------------------------------------------------------

  class MlsServer {
    var storage: map<RawId, Group>
    var cache: map<RawId, Group>

    ghost function Value(): Groups
      reads this
    {
      Groups(storage, cache)
    }

    constructor ()
      ensures Value() == Groups(map[], map[])
    {
      storage, cache := map[], map[];
    }

    /** Loads a group into the cache unless it is there already. */
    method GetGroup(id: RawId) returns (g: Option<Group>)
      modifies this
      ensures g == Held(old(Value()), id)
      ensures Value() == Cached(old(Value()), id)
    {
      if id in cache {
        assert cache[id := cache[id]] == cache;
        return Some(cache[id]);
      }
      if id !in storage {
        return None;
      }
      cache := cache[id := storage[id]];
      return Some(storage[id]);
    }

    /** Stores a new group that may be created. A welcome that came with it goes to all its members. */
    method AddSvalinGroup(s: StateValue, raw: RawId, g: Group, welcome: bool, now: nat)
      returns (welcomed: Result<Option<set<SpkiHash>>, PolicyError>)
      modifies this
      ensures welcomed.Ok? <==> Creatable(s, raw, g, now)
      ensures welcomed.Ok? ==> welcomed.value == if welcome then Some(Members(g)) else None
      ensures Value() == Handle(s, old(Value()), NewGroup(raw, g), now)
    {
      hide RequiredMembers;
      var parsed := Parse(raw);
      if parsed.None? {
        return Err(UnreadableGroupId);
      }
      var id := parsed.value;
      if id.GlobalGroup? {
        return Err(UnexpectedGroup);
      }
      var looked := LookUp(s, id.agent, now);
      if looked.Err? {
        return Err(Unverified(looked.error));
      }
      if !looked.value.kind.Agent? {
        return Err(InvalidGroupId);
      }
      var required := RequiredMembers(s, id, now);
      if required.Err? {
        return Err(required.error);
      }
      if required.value != Members(g) {
        return Err(WrongMembers);
      }
      storage := storage[raw := g];
      return Ok(if welcome then Some(Members(g)) else None);
    }

    /** Checks a staged commit against the group that the parsed id names, and merges it there. */
    method CheckAndMerge(s: StateValue, raw: RawId, g: Group, commit: Commit, elsewhere: Group, now: nat)
      returns (checked: Outcome<PolicyError>, found: bool)
      requires Parse(raw).Some? && Held(Value(), raw) == Some(g)
      modifies this
      ensures
        var id, target := Parse(raw).value, Held(old(Value()), Target(raw));
        var w := if Consults(s, id, commit, now) then Cached(old(Value()), Target(raw)) else old(Value());
        && found == target.Some?
        && (checked.Pass? <==> CommitAllowed(s, id, if found then target.value else map[], commit, now))
        && Value() ==
          if checked.Pass? && found then
            var merged := if Canonical(raw) then Merge(g, commit) else elsewhere;
            Groups(w.storage[Target(raw) := merged], w.cache[Target(raw) := merged])
          else w
    {
      hide CommitAllowed;
      hide Consults;
      hide Merge;
      var target := if Target(raw) in cache then Some(cache[Target(raw)])
                    else if Target(raw) in storage then Some(storage[Target(raw)]) else None;
      found := target.Some?;
      if Consults(s, Parse(raw).value, commit, now) {
        target := GetGroup(Target(raw));
      }
      checked := CheckCommit(s, Parse(raw).value, if found then target.value else map[], commit, now);
      if checked.Pass? && found {
        var merged := if Canonical(raw) then Merge(g, commit) else elsewhere;
        cache := cache[Target(raw) := merged];
        storage := storage[Target(raw) := merged];
      }
    }

    /** `process_message` for a group message, and with `mayAdd` for an add message. The result
        lists who the message is passed on to: everybody who was in the group before it. A welcome
        goes to the added members, and only once their addition was merged. */
    method ProcessMessage(s: StateValue, raw: RawId, message: Message, mayAdd: bool, now: nat)
      returns (receivers: Result<set<SpkiHash>, PolicyError>, welcomed: seq<SpkiHash>)
      modifies this
      ensures
        var event := if mayAdd then AddToGroup(raw, message) else GroupMessage(raw, message);
        && Value() == Handle(s, old(Value()), event, now)
        && welcomed == (if mayAdd && Merges(s, old(Value()), event, now) then Added(message.commit.additions) else [])
        && (receivers.Ok? <==>
          && Held(old(Value()), raw).Some? && !message.Rejected? && Parse(raw).Some?
          && (Considered(old(Value()), event) && CommitAllowed(s, Parse(raw).value, map[], message.commit, now) ==>
            Held(old(Value()), Target(raw)).Some?))
        && (receivers.Ok? ==> receivers.value == Members(Held(old(Value()), raw).value))
      ensures Canonical(raw) ==> forall m :: m in welcomed ==> Held(Value(), raw).Some? && m in Members(Held(Value(), raw).value)
    {
      hide CommitAllowed;
      hide Consults;
      hide Merge;
      welcomed := [];
      ghost var before := Value();
      var g := GetGroup(raw);
      CachingKeepsHeld(before, raw, raw);
      CachingKeepsHeld(before, raw, Target(raw));
      if g.None? {
        return Err(UnknownGroup), [];
      }
      if message.Rejected? {
        return Err(MessageNotAllowed), [];
      }
      if Parse(raw).None? {
        return Err(UnreadableGroupId), [];
      }
      if message.Staged? && (mayAdd || message.commit.additions == []) {
        var checked, found := CheckAndMerge(s, raw, g.value, message.commit, message.elsewhere, now);
        if checked.Pass? {
          if !found {
            return Err(UnknownGroup), [];
          }
          if mayAdd {
            welcomed := Added(message.commit.additions);
            AddedAreMembers(g.value, message.commit);
          }
        }
      }
      return Ok(Members(g.value)), welcomed;
    }
  }
}
