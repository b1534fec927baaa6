/**
 The group policy written out: when a group has required members, which groups may be created, who
 may edit a group and by what, and what a group message can do.
 */
module GroupRules {
  import opened Outcomes
  import opened Certificates
  import opened TrustState
  import opened CertificateChain
  import opened CertificateTree
  import opened GroupIds
  import opened GroupPolicy

  // ---------------------------------------------------------------------------------------
  // Required members
  // ---------------------------------------------------------------------------------------

  /** A path of issuers from the root to a stored agent on which every later certificate is signed under the
      one before it and is valid. */
  ghost predicate ValidPath(s: StateValue, agent: SpkiHash, now: nat, chain: seq<Certificate>)
    requires agent in s.certificates
  {
    && IssuerPath(s.certificates, chain, s.certificates[agent])
    && chain[0] == s.root
    && forall i :: 0 < i < |chain| ==>
      SignedUnder(chain[i], chain[i - 1]) && chain[i].notBefore <= now <= chain[i].notAfter
  }

  lemma AgentChainExact(s: StateValue, agent: SpkiHash, now: nat, chain: seq<Certificate>)
    ensures AgentChain(s, agent, now) == Ok(chain) <==> agent in s.certificates && ValidPath(s, agent, now, chain)
  {
    if agent in s.certificates {
      var leaf := s.certificates[agent];
      CompletionExact(s.certificates, leaf, chain);
      VerifyExact(chain, s.root, now);
      if AgentChain(s, agent, now).Ok? {
        VerifyExact(Complete(s.certificates, [leaf]).value, s.root, now);
      }
      hide Complete;
      hide VerifyChain;
    }
  }

  /** An agent's groups have required members exactly when the agent is stored and has such a path; they are
      then the path's, for the meta group without the agent. The global group always requires the root. */
  lemma RequiredMembersExact(s: StateValue, agent: SpkiHash, now: nat)
    ensures RequiredMembers(s, GlobalGroup, now) == Ok({s.root.spkiHash})
    ensures RequiredMembers(s, DeviceGroup(agent), now).Ok? <==>
      agent in s.certificates && exists chain :: ValidPath(s, agent, now, chain)
    ensures RequiredMembers(s, DeviceMetaGroup(agent), now).Ok? <==>
      agent in s.certificates && exists chain :: ValidPath(s, agent, now, chain)
    ensures forall chain :: agent in s.certificates && ValidPath(s, agent, now, chain) ==>
      && RequiredMembers(s, DeviceGroup(agent), now) == Ok(Keys(chain))
      && RequiredMembers(s, DeviceMetaGroup(agent), now) == Ok(Keys(chain[..|chain| - 1]))
  {
    hide AgentChain;
    hide ValidPath;
    forall chain ensures AgentChain(s, agent, now) == Ok(chain) <==> agent in s.certificates && ValidPath(s, agent, now, chain) {
      AgentChainExact(s, agent, now, chain);
    }
    forall chain | agent in s.certificates && ValidPath(s, agent, now, chain) ensures chain != [] {
      PathIsNotEmpty(s, agent, now, chain);
    }
    if AgentChain(s, agent, now).Ok? {
      assert AgentChain(s, agent, now) == Ok(AgentChain(s, agent, now).value);
    }
  }

  lemma PathIsNotEmpty(s: StateValue, agent: SpkiHash, now: nat, chain: seq<Certificate>)
    requires agent in s.certificates && ValidPath(s, agent, now, chain)
    ensures chain != []
  {
  }

  /** The agent of a group, if it has one. */
  function AgentOf(id: GroupId): Option<SpkiHash> {
    match id
    case GlobalGroup => None
    case DeviceGroup(agent) => Some(agent)
    case DeviceMetaGroup(agent) => Some(agent)
  }

  /** Nothing is created and nothing is merged for an agent without such a path, be it that one certificate
      on it has expired. */
  lemma NothingForABrokenPath(s: StateValue, v: Groups, event: Event, now: nat)
    requires !event.Restart? && Parse(event.id).Some? && AgentOf(Parse(event.id).value).Some?
    requires var agent := AgentOf(Parse(event.id).value).value;
      agent in s.certificates ==> forall chain :: !ValidPath(s, agent, now, chain)
    ensures forall raw :: Held(Handle(s, v, event, now), raw) == Held(v, raw)
  {
    var agent := AgentOf(Parse(event.id).value).value;
    RequiredMembersExact(s, agent, now);
    assert RequiredMembers(s, Parse(event.id).value, now).Err?;
    hide RequiredMembers;
    hide ValidPath;
    forall raw ensures Held(Handle(s, v, event, now), raw) == Held(v, raw) {
      if event.HasMessage() {
        assert !Merges(s, v, event, now);
        RefusedCommitChangesNothing(s, v, event, now, raw);
      }
    }
  }

  // ---------------------------------------------------------------------------------------
  // Creation
  // ---------------------------------------------------------------------------------------

  /** Exactly which groups may be created: those of a stored, currently valid certificate of type Agent, with
      exactly the members that are required now. */
  lemma CreationExact(s: StateValue, raw: RawId, g: Group, now: nat)
    ensures Creatable(s, raw, g, now) <==>
      && Parse(raw).Some?
      && AgentOf(Parse(raw).value).Some?
      && (var agent := AgentOf(Parse(raw).value).value;
        && agent in s.certificates
        && s.certificates[agent].kind == Agent
        && s.certificates[agent].notBefore <= now <= s.certificates[agent].notAfter)
      && RequiredMembers(s, Parse(raw).value, now).Ok?
      && forall m :: m in RequiredMembers(s, Parse(raw).value, now).value <==> exists leaf :: leaf in g && g[leaf] == m
  {
    hide RequiredMembers;
    if Parse(raw).Some? && RequiredMembers(s, Parse(raw).value, now).Ok? {
      var required := RequiredMembers(s, Parse(raw).value, now).value;
      if forall m :: m in required <==> exists leaf :: leaf in g && g[leaf] == m {
        assert required == Members(g);
      }
    }
  }

  /** Whoever is in an orderly group without being required is stored as a user or a session. */
  lemma OthersAreUsersOrSessions(s: StateValue, id: GroupId, g: Group)
    ensures GroupOk(s, id, g) <==>
      && PathMembers(s, id).Some?
      && (forall m :: m in PathMembers(s, id).value ==> exists leaf :: leaf in g && g[leaf] == m)
      && (forall leaf :: leaf in g && g[leaf] !in PathMembers(s, id).value ==>
        g[leaf] in s.certificates && s.certificates[g[leaf]].kind in {User, UserSession})
  {
    hide PathMembers;
    if PathMembers(s, id).Some? && (forall m :: m in PathMembers(s, id).value ==> exists leaf :: leaf in g && g[leaf] == m) {
      assert PathMembers(s, id).value <= Members(g);
      forall leaf | leaf in g ensures g[leaf] in Members(g) {
      }
    }
  }

  // ---------------------------------------------------------------------------------------
  // Commits
  // ---------------------------------------------------------------------------------------

  /** A member of the group whose certificate is stored, is of a type that may edit groups, and is valid. */
  ghost predicate Editor(s: StateValue, g: Group, sender: Sender, now: nat) {
    && sender.Member? && sender.leaf in g
    && g[sender.leaf] in s.certificates
    && (var c := s.certificates[g[sender.leaf]];
      c.kind in {Root, User, UserSession} && c.notBefore <= now <= c.notAfter)
  }

  /** Exactly which commits are allowed on a group. */
  ghost predicate Allowed(s: StateValue, id: GroupId, g: Group, commit: Commit, now: nat) {
    && (forall k :: k in commit.credentials ==>
      k in s.certificates && s.certificates[k].notBefore <= now <= s.certificates[k].notAfter)
    && RequiredMembers(s, id, now).Ok?
    && (forall r :: r in commit.removals ==>
      Editor(s, g, r.sender, now) && r.removed in g && g[r.removed] !in RequiredMembers(s, id, now).value)
    && (forall a :: a in commit.additions ==>
      && Editor(s, g, a.sender, now) && a.keyMatches
      && a.member in s.certificates
      && (var c := s.certificates[a.member]; c.kind in {User, UserSession} && c.notBefore <= now <= c.notAfter))
  }

  lemma SenderExact(s: StateValue, g: Group, sender: Sender, now: nat)
    ensures SenderAllowed(s, g, sender, now) <==> Editor(s, g, sender, now)
  {
  }

  lemma CommitExact(s: StateValue, id: GroupId, g: Group, commit: Commit, now: nat)
    ensures CommitAllowed(s, id, g, commit, now) <==> Allowed(s, id, g, commit, now)
  {
    hide RequiredMembers;
    hide Editor;
    hide SenderAllowed;
    forall sender ensures SenderAllowed(s, g, sender, now) <==> Editor(s, g, sender, now) {
      SenderExact(s, g, sender, now);
    }
  }

  /** Exactly when a message's commit is merged, looked up by the parsed id; and what is held then. */
  lemma MergeHappensExactly(s: StateValue, v: Groups, event: Event, now: nat)
    requires event.HasMessage()
    ensures Merges(s, v, event, now) <==>
      && Held(v, event.id).Some?
      && Parse(event.id).Some?
      && Held(v, ToRaw(Parse(event.id).value)).Some?
      && event.message.Staged?
      && (event.GroupMessage? ==> |event.message.commit.additions| == 0)
      && Allowed(s, Parse(event.id).value, Held(v, ToRaw(Parse(event.id).value)).value, event.message.commit, now)
    ensures Merges(s, v, event, now) && Canonical(event.id) ==>
      Held(Handle(s, v, event, now), event.id) == Some(Merge(Held(v, event.id).value, event.message.commit))
  {
    hide Allowed;
    hide CommitAllowed;
    hide Merge;
    if Parse(event.id).Some? && Held(v, ToRaw(Parse(event.id).value)).Some? && event.message.Staged? {
      CommitExact(s, Parse(event.id).value, Held(v, ToRaw(Parse(event.id).value)).value, event.message.commit, now);
    }
    if Merges(s, v, event, now) && Canonical(event.id) {
      MergedCommitIsKept(s, v, event, now, event.id);
    }
    hide Handle;
  }

  /** A group message never brings anybody into a group: under a canonical id the members in force afterwards
      were there before, and a commit that adds members changes nothing at all. */
  lemma GroupMessagesAddNobody(s: StateValue, v: Groups, raw: RawId, message: Message, now: nat)
    ensures var w := Handle(s, v, GroupMessage(raw, message), now);
      && (Canonical(raw) ==> forall id :: Held(w, id).Some? ==>
        Held(v, id).Some? && forall leaf :: leaf in Held(w, id).value ==>
          leaf in Held(v, id).value && Held(v, id).value[leaf] == Held(w, id).value[leaf])
      && (message.Staged? && message.commit.additions != [] ==> forall id :: Held(w, id) == Held(v, id))
  {
    var event := GroupMessage(raw, message);
    MergeHappensExactly(s, v, event, now);
    hide Allowed;
    if Merges(s, v, event, now) {
      forall id ensures id != Target(raw) ==> Held(Handle(s, v, event, now), id) == Held(v, id) {
        MergedCommitIsKept(s, v, event, now, id);
      }
      assert message.commit.additions == [];
      hide Handle;
      hide Merges;
    } else {
      forall id ensures Held(Handle(s, v, event, now), id) == Held(v, id) {
        RefusedCommitChangesNothing(s, v, event, now, id);
      }
      hide Handle;
      hide Merges;
    }
  }

  /** Which groups a message leaves in the cache: the addressed one, and through another spelling the one
      under the server's own, if the first proposal of a commit that is looked at has a member as its sender,
      or it has no proposals. */
  lemma CachedByMessage(s: StateValue, v: Groups, event: Event, now: nat, id: RawId)
    requires event.HasMessage() && !Merges(s, v, event, now)
    ensures id in Handle(s, v, event, now).cache <==>
      || id in v.cache
      || (id == event.id && Held(v, id).Some?)
      || (Parse(event.id).Some? && id == ToRaw(Parse(event.id).value) && Held(v, id).Some? && Held(v, event.id).Some?
        && event.message.Staged?
        && (event.GroupMessage? ==> event.message.commit.additions == [])
        && (forall k :: k in event.message.commit.credentials ==>
          k in s.certificates && s.certificates[k].notBefore <= now <= s.certificates[k].notAfter)
        && RequiredMembers(s, Parse(event.id).value, now).Ok?
        && (if event.message.commit.removals != [] then event.message.commit.removals[0].sender.Member?
            else if event.message.commit.additions != [] then event.message.commit.additions[0].sender.Member?
            else true))
  {
    hide RequiredMembers;
    hide Merges;
  }
}
