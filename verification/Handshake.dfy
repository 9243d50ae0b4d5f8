/** How clients get their node ids: ConnectQueuePair, RdmaAccept and RdmaConnect of
    src/net/RdmaSocket.cpp as message exchanges. Server 1 accepts one connection at a time, announces
    the next id, and assigns it when it has read the client's answer; a client that has completed the
    handshake with server 1 presents its id to the other servers. */
module Handshake {
  const MAX_PEERS: nat := 1000

  datatype Phase = Greeting | Named | Joined | Failed

  /** The connection server 1 is working on. */
  datatype Serving = Nobody | Announced(c: nat, id: nat) | Assigned(c: nat, id: nat)

  /** `given` and `meta` are the messages server 1 has sent, by client; `owner` records to which client
      each id was assigned; `peers` is the peer table of every server. */
  datatype State = State(
    maxId: nat, serving: Serving, accepted: set<nat>, given: map<nat, nat>, meta: set<nat>,
    phase: map<nat, Phase>, nodeId: map<nat, nat>, peers: map<nat, map<nat, nat>>, owner: map<nat, nat>)

  datatype Step =
    | Dial(c: nat)            // client c opens a socket to server 1
    | Accept(c: nat)          // server 1 takes the connection and announces the next id
    | Assign                  // server 1 has read the client's answer: the id is consumed
    | File                    // server 1 completes the connection and files the peer
    | GiveUp                  // the connection fails at server 1, before or after the id is consumed
    | Name(c: nat)            // the client reads its id
    | Join(c: nat)            // the client completes the handshake with server 1
    | Abort(c: nat)           // the client fails
    | Present(s: nat, c: nat) // a further server files the client under the id it presents

  /** The servers' peer tables, all empty. */
  function NoPeers(servers: nat): (r: map<nat, map<nat, nat>>)
    ensures forall n :: n in r <==> 1 <= n <= servers
    ensures forall n :: n in r ==> r[n] == map[]
  {
    if servers == 0 then map[] else NoPeers(servers - 1)[servers := map[]]
  }

  function Initial(servers: nat): State {
    State(servers + 1, Nobody, {}, map[], {}, map[], map[], NoPeers(servers), map[])
  }

  ghost predicate Enabled(s: State, step: Step) {
    match step
    case Dial(c) => c !in s.phase
    case Accept(c) => s.serving.Nobody? && c in s.phase && c !in s.accepted
    case Assign => s.serving.Announced? && s.maxId < MAX_PEERS
    case File => s.serving.Assigned? && 1 in s.peers
    case GiveUp => !s.serving.Nobody?
    case Name(c) => c in s.phase && s.phase[c].Greeting? && c in s.given
    case Join(c) => c in s.phase && s.phase[c].Named? && c in s.meta
    case Abort(c) => c in s.phase
    case Present(n, c) => n != 1 && n in s.peers && c in s.phase && s.phase[c].Joined? && c in s.nodeId
  }

  function FileUnder(table: map<nat, nat>, id: nat, c: nat): map<nat, nat> {
    table[id := c]
  }

  function Take(s: State, step: Step): State
    requires Enabled(s, step)
  {
    match step
    case Dial(c) => s.(phase := s.phase[c := Greeting])
    case Accept(c) =>
      s.(serving := Announced(c, s.maxId), accepted := s.accepted + {c}, given := s.given[c := s.maxId])
    case Assign =>
      s.(serving := Assigned(s.serving.c, s.maxId), maxId := s.maxId + 1,
         owner := s.owner[s.maxId := s.serving.c], meta := s.meta + {s.serving.c})
    case File =>
      s.(serving := Nobody, peers := s.peers[1 := FileUnder(s.peers[1], s.serving.id, s.serving.c)])
    case GiveUp => s.(serving := Nobody)
    case Name(c) => s.(phase := s.phase[c := Named], nodeId := s.nodeId[c := s.given[c]])
    case Join(c) => s.(phase := s.phase[c := Joined])
    case Abort(c) => s.(phase := s.phase[c := Failed])
    case Present(n, c) => s.(peers := s.peers[n := FileUnder(s.peers[n], s.nodeId[c], c)])
  }

  // ----- what every interleaving keeps -----

  /** The id belongs to the client: server 1 assigned it, and announced just that id. */
  ghost predicate Owns(s: State, c: nat, id: nat) {
    id in s.owner && s.owner[id] == c && c in s.given && s.given[c] == id
  }

  /** The consumed ids are those above the servers' and below the next one; each belongs to the client
      it was announced to, and server 1 has read the answers of just these clients. */
  ghost predicate OwnersOk(s: State, servers: nat) {
    && servers < s.maxId
    && (forall id :: id in s.owner <==> servers < id < s.maxId)
    && (forall id :: id in s.owner ==> Owns(s, s.owner[id], id) && s.owner[id] in s.accepted)
    && (forall c :: c in s.meta ==> c in s.given && Owns(s, c, s.given[c]))
    && (forall c, id :: Owns(s, c, id) ==> c in s.meta)
  }

  ghost predicate GivenOk(s: State, servers: nat) {
    && (forall c :: c in s.given <==> c in s.accepted)
    && (forall c :: c in s.given ==> servers < s.given[c] <= s.maxId)
  }

  ghost predicate ServingOk(s: State) {
    match s.serving
    case Nobody => true
    case Announced(c, id) => id == s.maxId && c in s.given && s.given[c] == id && c !in s.meta
    case Assigned(c, id) => Owns(s, c, id)
  }

  ghost predicate ClientsOk(s: State) {
    && (forall c :: c in s.phase && (s.phase[c].Named? || s.phase[c].Joined?) ==>
          c in s.given && c in s.nodeId && s.nodeId[c] == s.given[c])
    && (forall c :: c in s.phase && s.phase[c].Joined? ==> c in s.meta)
    && (forall c :: c in s.accepted ==> c in s.phase)
  }

  ghost predicate PeersOk(s: State) {
    forall n, id :: n in s.peers && id in s.peers[n] ==> Owns(s, s.peers[n][id], id)
  }

  ghost predicate Inv(s: State, servers: nat) {
    OwnersOk(s, servers) && GivenOk(s, servers) && ServingOk(s) && ClientsOk(s) && PeersOk(s)
  }

  lemma InitialInv(servers: nat)
    ensures Inv(Initial(servers), servers)
  {
  }

  /** Assigned ids stay with their client. */
  lemma OwnsStays(s: State, step: Step, servers: nat, c: nat, id: nat)
    requires Inv(s, servers) && Enabled(s, step) && Owns(s, c, id)
    ensures Owns(Take(s, step), c, id)
  {
  }

  lemma PeersStay(s: State, step: Step, servers: nat)
    requires Inv(s, servers) && Enabled(s, step) && Take(s, step).peers == s.peers
    ensures PeersOk(Take(s, step))
  {
    var t := Take(s, step);
    forall n, id | n in t.peers && id in t.peers[n] ensures Owns(t, t.peers[n][id], id) {
      OwnsStays(s, step, servers, s.peers[n][id], id);
    }
  }

  lemma AcceptStepInv(s: State, step: Step, servers: nat)
    requires Inv(s, servers) && Enabled(s, step) && step.Accept?
    ensures Inv(Take(s, step), servers)
  {
    PeersStay(s, step, servers);
    hide PeersOk;
  }

  lemma AssignClients(s: State, step: Step, servers: nat)
    requires ClientsOk(s) && Enabled(s, step) && step.Assign?
    ensures ClientsOk(Take(s, step))
  {
    hide Owns;
  }

  lemma AssignStepInv(s: State, step: Step, servers: nat)
    requires Inv(s, servers) && Enabled(s, step) && step.Assign?
    ensures Inv(Take(s, step), servers)
  {
    PeersStay(s, step, servers);
    hide PeersOk;
    AssignClients(s, step, servers);
    hide ClientsOk;
    assert s.serving.c in s.given && s.given[s.serving.c] == s.maxId;
  }

  lemma FilingStepInv(s: State, step: Step, servers: nat)
    requires Inv(s, servers) && Enabled(s, step) && (step.File? || step.Present?)
    ensures Inv(Take(s, step), servers)
  {
    var t := Take(s, step);
    IdsStay(s, t, servers);
    hide OwnersOk;
    hide GivenOk;
    forall n, id | n in t.peers && id in t.peers[n] ensures Owns(t, t.peers[n][id], id) {
      if n in s.peers && id in s.peers[n] {
        assert Owns(s, s.peers[n][id], id);
      }
    }
  }

  lemma IdsStay(s: State, t: State, servers: nat)
    requires OwnersOk(s, servers) && GivenOk(s, servers)
    requires t.(serving := s.serving, phase := s.phase, nodeId := s.nodeId, peers := s.peers) == s
    ensures OwnersOk(t, servers) && GivenOk(t, servers)
    ensures forall c, id :: Owns(t, c, id) <==> Owns(s, c, id)
  {
    assert forall c, id :: Owns(t, c, id) <==> Owns(s, c, id);
  }

  lemma ClientStepClients(s: State, step: Step)
    requires ClientsOk(s) && Enabled(s, step)
    requires step.Dial? || step.GiveUp? || step.Name? || step.Join? || step.Abort?
    ensures ClientsOk(Take(s, step))
  {
  }

  lemma ClientStepServing(s: State, step: Step)
    requires ServingOk(s) && Enabled(s, step)
    requires step.Dial? || step.GiveUp? || step.Name? || step.Join? || step.Abort?
    requires forall c, id :: Owns(Take(s, step), c, id) <==> Owns(s, c, id)
    ensures ServingOk(Take(s, step))
  {
    hide Owns;
  }

  lemma ClientStepInv(s: State, step: Step, servers: nat)
    requires Inv(s, servers) && Enabled(s, step)
    requires step.Dial? || step.GiveUp? || step.Name? || step.Join? || step.Abort?
    ensures Inv(Take(s, step), servers)
  {
    PeersStay(s, step, servers);
    IdsStay(s, Take(s, step), servers);
    hide PeersOk;
    hide OwnersOk;
    hide GivenOk;
    hide ClientsOk;
    hide ServingOk;
    hide Owns;
    hide Enabled;
    ClientStepClients(s, step);
    ClientStepServing(s, step);
  }

  lemma StepInv(s: State, step: Step, servers: nat)
    requires Inv(s, servers) && Enabled(s, step)
    ensures Inv(Take(s, step), servers)
  {
    hide *;
    match step
    case Accept(_) => AcceptStepInv(s, step, servers);
    case Assign => AssignStepInv(s, step, servers);
    case File => FilingStepInv(s, step, servers);
    case Present(_, _) => FilingStepInv(s, step, servers);
    case _ => ClientStepInv(s, step, servers);
  }

  /** Assigned ids stay with their client. */
  lemma StepKeepsOwners(s: State, step: Step, servers: nat, id: nat)
    requires Inv(s, servers) && Enabled(s, step) && id in s.owner
    ensures id in Take(s, step).owner && Take(s, step).owner[id] == s.owner[id]
  {
  }

  ghost predicate Run(servers: nat, states: seq<State>, steps: seq<Step>) {
    && |states| == |steps| + 1 && states[0] == Initial(servers)
    && forall k :: 0 <= k < |steps| ==> Enabled(states[k], steps[k]) && states[k + 1] == Take(states[k], steps[k])
  }

  lemma {:induction false} RunInv(servers: nat, states: seq<State>, steps: seq<Step>, k: nat)
    requires Run(servers, states, steps) && k <= |steps|
    ensures Inv(states[k], servers)
    decreases k
  {
    hide Inv;
    hide Enabled;
    hide Take;
    if k == 0 {
      InitialInv(servers);
    } else {
      RunInv(servers, states, steps, k - 1);
      StepInv(states[k - 1], steps[k - 1], servers);
    }
  }

  predicate Connected(s: State, c: nat) {
    c in s.phase && s.phase[c].Joined? && c in s.nodeId
  }

  /** In every interleaving of any number of clients, connected clients hold distinct ids above the
      server count, and whatever a server has filed under an id is the client that server 1 assigned
      the id to, under the very id the client holds. */
  lemma DistinctIds(servers: nat, states: seq<State>, steps: seq<Step>, k: nat)
    requires Run(servers, states, steps) && k <= |steps|
    ensures var s := states[k];
            && (forall c :: c in s.phase && s.phase[c].Joined? ==> Connected(s, c) && s.nodeId[c] > servers)
            && (forall c, d :: Connected(s, c) && Connected(s, d) && s.nodeId[c] == s.nodeId[d] ==> c == d)
            && (forall n, id :: n in s.peers && id in s.peers[n] ==>
                  && servers < id && (servers < MAX_PEERS ==> id < MAX_PEERS) && id in s.owner && s.owner[id] == s.peers[n][id]
                  && (s.peers[n][id] in s.phase && s.phase[s.peers[n][id]].Joined? ==> s.nodeId[s.peers[n][id]] == id))
  {
    RunInv(servers, states, steps, k);
    IdsBounded(servers, states, steps, k);
  }

  function Bound(servers: nat): nat {
    if servers + 1 <= MAX_PEERS then MAX_PEERS else servers + 1
  }

  lemma StepBounded(s: State, step: Step, servers: nat)
    requires Enabled(s, step) && s.maxId <= Bound(servers)
    ensures Take(s, step).maxId <= Bound(servers)
  {
  }

  /** Ids never reach the end of the peer table once a table has room for the servers. */
  lemma {:induction false} IdsBounded(servers: nat, states: seq<State>, steps: seq<Step>, k: nat)
    requires Run(servers, states, steps) && k <= |steps|
    ensures states[k].maxId <= Bound(servers)
    decreases k
  {
    hide Enabled;
    hide Take;
    if k > 0 {
      IdsBounded(servers, states, steps, k - 1);
      StepBounded(states[k - 1], steps[k - 1], servers);
    }
  }

  /** Two servers never file different clients under the same id. */
  lemma ServersAgree(servers: nat, states: seq<State>, steps: seq<Step>, k: nat, n: nat, m: nat, id: nat)
    requires Run(servers, states, steps) && k <= |steps|
    requires n in states[k].peers && m in states[k].peers && id in states[k].peers[n] && id in states[k].peers[m]
    ensures states[k].peers[n][id] == states[k].peers[m][id]
  {
    RunInv(servers, states, steps, k);
  }

  /** An id that server 1 has consumed, also for a connection that failed afterwards, stays with its
      client for the rest of the run. */
  lemma {:induction false} NeverReused(servers: nat, states: seq<State>, steps: seq<Step>, j: nat, k: nat, id: nat)
    requires Run(servers, states, steps) && j <= k <= |steps| && id in states[j].owner
    ensures id in states[k].owner && states[k].owner[id] == states[j].owner[id]
    ensures forall c :: c in states[k].phase && states[k].phase[c].Joined? && c in states[k].nodeId && states[k].nodeId[c] == id
                        ==> c == states[j].owner[id]
    decreases k - j
  {
    RunInv(servers, states, steps, k);
    if j < k {
      RunInv(servers, states, steps, j);
      StepKeepsOwners(states[j], steps[j], servers, id);
      NeverReused(servers, states, steps, j + 1, k, id);
    }
  }

  // ----- filing -----

  /** Server n files the same client, or none, under the id. */
  ghost predicate SameFiled(s: State, t: State, n: nat, id: nat) {
    && (n in s.peers <==> n in t.peers)
    && (n in s.peers ==> (id in s.peers[n] <==> id in t.peers[n]))
    && (n in s.peers && id in s.peers[n] ==> t.peers[n][id] == s.peers[n][id])
  }

  /** Server n files client c under the id, and that is all that changes in the peer tables. */
  ghost predicate FilesJust(s: State, t: State, n: nat, id: nat, c: nat) {
    && n in t.peers && id in t.peers[n] && t.peers[n][id] == c
    && forall m: nat, i: nat :: m != n || i != id ==> SameFiled(s, t, m, i)
  }

  /** Server 1 files the client it serves under the id it assigned, another server a client that presents
      itself under the id it holds; no other step touches a peer table. */
  lemma StepFiles(s: State, step: Step, servers: nat)
    requires Inv(s, servers) && Enabled(s, step)
    ensures var t := Take(s, step);
            && (step.File? ==> FilesJust(s, t, 1, s.serving.id, s.serving.c) && t.serving == Nobody)
            && (step.Present? ==> FilesJust(s, t, step.s, s.nodeId[step.c], step.c))
            && (!step.File? && !step.Present? ==> t.peers == s.peers)
  {
    hide Inv;
  }

  /** Once filed, a client stays filed at that server under that id. */
  lemma {:induction false} FiledStays(servers: nat, states: seq<State>, steps: seq<Step>, j: nat, k: nat, n: nat, id: nat)
    requires Run(servers, states, steps) && j <= k <= |steps| && n in states[j].peers && id in states[j].peers[n]
    ensures n in states[k].peers && id in states[k].peers[n] && states[k].peers[n][id] == states[j].peers[n][id]
    decreases k
  {
    hide Inv;
    hide Enabled;
    hide Take;
    if j < k {
      FiledStays(servers, states, steps, j, k - 1, n, id);
      RunInv(servers, states, steps, k - 1);
      StepKeepsFiled(states[k - 1], steps[k - 1], servers, n, id);
    }
  }

  lemma StepKeepsFiled(s: State, step: Step, servers: nat, n: nat, id: nat)
    requires Inv(s, servers) && Enabled(s, step) && n in s.peers && id in s.peers[n]
    ensures var t := Take(s, step); n in t.peers && id in t.peers[n] && t.peers[n][id] == s.peers[n][id]
  {
    StepFiles(s, step, servers);
    StepInv(s, step, servers);
    var t := Take(s, step);
    assert Owns(s, s.peers[n][id], id);
    StepKeepsOwners(s, step, servers, id);
    assert n in t.peers && id in t.peers[n] ==> Owns(t, t.peers[n][id], id);
    hide Inv;
    hide Take;
    hide Enabled;
    assert SameFiled(s, t, n, id) || (n in t.peers && id in t.peers[n]);
  }

  // ----- a handshake that nothing interrupts -----

  /** A client that dials while server 1 is idle, and whose messages all arrive, gets the next id, is filed
      under it at server 1, and nothing else changes. */
  lemma HandshakeSucceeds(s: State, c: nat, servers: nat) returns (t: State)
    requires Inv(s, servers) && s.serving.Nobody? && c !in s.phase && s.maxId < MAX_PEERS && 1 in s.peers
    ensures Leads(s, [Dial(c), Accept(c), Name(c), Assign, Join(c), File], t)
    ensures Connected(t, c) && t.nodeId[c] == s.maxId && t.maxId == s.maxId + 1 && t.serving == Nobody
    ensures FilesJust(s, t, 1, s.maxId, c)
    ensures t.nodeId == s.nodeId[c := s.maxId] && t.phase == s.phase[c := Joined] && t.owner == s.owner[s.maxId := c]
  {
    NotAccepted(s, c, servers);
    hide Inv;
    hide Enabled;
    hide Take;
    hide FilesJust;
    hide Leads;
    var s1, s2, s3 := FirstSteps(s, c);
    var s4, s5;
    s4, s5, t := LastSteps(s, s3, c);
    SixSteps(s, s1, s2, s3, s4, s5, t, [Dial(c), Accept(c), Name(c), Assign, Join(c), File]);
  }

  lemma NotAccepted(s: State, c: nat, servers: nat)
    requires Inv(s, servers) && c !in s.phase
    ensures c !in s.accepted
  {
  }

  lemma FirstSteps(s: State, c: nat) returns (s1: State, s2: State, s3: State)
    requires s.serving.Nobody? && c !in s.phase && c !in s.accepted
    ensures Enabled(s, Dial(c)) && Take(s, Dial(c)) == s1
    ensures Enabled(s1, Accept(c)) && Take(s1, Accept(c)) == s2
    ensures Enabled(s2, Name(c)) && Take(s2, Name(c)) == s3
    ensures s3.serving == Announced(c, s.maxId) && s3.maxId == s.maxId && s3.peers == s.peers && s3.owner == s.owner
    ensures s3.phase == s.phase[c := Named] && s3.nodeId == s.nodeId[c := s.maxId]
  {
    s1 := Take(s, Dial(c));
    s2 := Take(s1, Accept(c));
    s3 := Take(s2, Name(c));
    assert s.phase[c := Greeting][c := Named] == s.phase[c := Named];
  }

  lemma LastSteps(s: State, s3: State, c: nat) returns (s4: State, s5: State, t: State)
    requires s3.serving == Announced(c, s.maxId) && s3.maxId == s.maxId < MAX_PEERS && s3.peers == s.peers && 1 in s.peers
    requires s3.phase == s.phase[c := Named] && s3.nodeId == s.nodeId[c := s.maxId] && s3.owner == s.owner
    ensures Enabled(s3, Assign) && Take(s3, Assign) == s4
    ensures Enabled(s4, Join(c)) && Take(s4, Join(c)) == s5
    ensures Enabled(s5, File) && Take(s5, File) == t
    ensures Connected(t, c) && t.nodeId == s.nodeId[c := s.maxId] && t.maxId == s.maxId + 1 && t.serving == Nobody
    ensures FilesJust(s, t, 1, s.maxId, c) && t.phase == s.phase[c := Joined] && t.owner == s.owner[s.maxId := c]
  {
    s4 := Take(s3, Assign);
    s5 := Take(s4, Join(c));
    t := Take(s5, File);
    assert s.phase[c := Named][c := Joined] == s.phase[c := Joined];
  }

  /** The steps can be taken one after the other, from s to t. */
  ghost predicate Leads(s: State, steps: seq<Step>, t: State)
    decreases |steps|
  {
    if steps == [] then s == t else Enabled(s, steps[0]) && Leads(Take(s, steps[0]), steps[1..], t)
  }

  lemma LeadsFirst(s: State, steps: seq<Step>, u: State, t: State)
    requires steps != [] && Enabled(s, steps[0]) && Take(s, steps[0]) == u && Leads(u, steps[1..], t)
    ensures Leads(s, steps, t)
  {
  }

  lemma LeadsNowhere(t: State)
    ensures Leads(t, [], t)
  {
  }

  lemma SixSteps(s0: State, s1: State, s2: State, s3: State, s4: State, s5: State, s6: State, steps: seq<Step>)
    requires |steps| == 6
    requires Enabled(s0, steps[0]) && Take(s0, steps[0]) == s1 && Enabled(s1, steps[1]) && Take(s1, steps[1]) == s2
    requires Enabled(s2, steps[2]) && Take(s2, steps[2]) == s3 && Enabled(s3, steps[3]) && Take(s3, steps[3]) == s4
    requires Enabled(s4, steps[4]) && Take(s4, steps[4]) == s5 && Enabled(s5, steps[5]) && Take(s5, steps[5]) == s6
    ensures Leads(s0, steps, s6)
  {
    hide *;
    LeadsNowhere(s6);
    assert steps[6..] == [];
    LeadsFrom(s5, steps, 5, s6, s6);
    LeadsFrom(s4, steps, 4, s5, s6);
    LeadsFrom(s3, steps, 3, s4, s6);
    LeadsFrom(s2, steps, 2, s3, s6);
    LeadsFrom(s1, steps, 1, s2, s6);
    LeadsFrom(s0, steps, 0, s1, s6);
    assert steps[0..] == steps;
  }

  lemma LeadsFrom(s: State, steps: seq<Step>, i: nat, u: State, t: State)
    requires i < |steps| && Enabled(s, steps[i]) && Take(s, steps[i]) == u && Leads(u, steps[i + 1..], t)
    ensures Leads(s, steps[i..], t)
  {
    hide Enabled;
    hide Take;
    assert steps[i..][0] == steps[i] && steps[i..][1..] == steps[i + 1..];
    LeadsFirst(s, steps[i..], u, t);
  }

  /** A connected client can present itself at every further server, which files it under its id. */
  lemma PresentSucceeds(s: State, n: nat, c: nat, servers: nat)
    requires Inv(s, servers) && Connected(s, c) && n in s.peers && n != 1
    ensures Enabled(s, Present(n, c))
    ensures var t := Take(s, Present(n, c)); FilesJust(s, t, n, s.nodeId[c], c) && t.(peers := s.peers) == s
  {
    StepFiles(s, Present(n, c), servers);
    hide Inv;
  }

  /** A client that has failed never connects any more, and no step but its own changes how far a client is. */
  lemma StepPhases(s: State, step: Step, c: nat)
    requires Enabled(s, step)
    ensures c in s.phase && s.phase[c].Failed? ==> c in Take(s, step).phase && Take(s, step).phase[c].Failed?
    ensures step == Abort(c) ==> c in Take(s, step).phase && Take(s, step).phase[c].Failed?
    ensures c in s.phase && step != Name(c) && step != Join(c) && step != Abort(c) ==>
              c in Take(s, step).phase && Take(s, step).phase[c] == s.phase[c]
  {
  }

  lemma Extend(servers: nat, states: seq<State>, steps: seq<Step>, step: Step) returns (states': seq<State>, steps': seq<Step>)
    requires Run(servers, states, steps) && Enabled(states[|steps|], step)
    ensures Run(servers, states', steps') && states'[|steps'|] == Take(states[|steps|], step)
  {
    states', steps' := states + [Take(states[|steps|], step)], steps + [step];
  }

  /** In every reachable state the id that a client was told is its own exactly when server 1 has read
      the client's answer. Until then it is the next id, or belongs to another client; and no two
      clients that server 1 has read an answer from were told the same id. */
  lemma ToldIff(servers: nat, states: seq<State>, steps: seq<Step>, k: nat)
    requires Run(servers, states, steps) && k <= |steps|
    ensures var s := states[k];
            && (forall c :: c in s.given ==> (c in s.meta <==> Owns(s, c, s.given[c])))
            && (forall c :: c in s.given && c !in s.meta ==>
                  s.given[c] == s.maxId || (s.given[c] in s.owner && s.owner[s.given[c]] != c))
            && (forall c, d :: c in s.given && d in s.given && c in s.meta && d in s.meta && s.given[c] == s.given[d] ==> c == d)
  {
    RunInv(servers, states, steps, k);
  }

  /** A client that has only been told an id does not own it: when server 1 gives up before it has
      read the client's answer, it announces the same id to the next client. */
  lemma AnnouncedTwice(servers: nat) returns (states: seq<State>, steps: seq<Step>)
    requires servers + 1 < MAX_PEERS
    ensures Run(servers, states, steps)
    ensures var s := states[|steps|];
            && 0 in s.phase && 1 in s.phase && s.phase[0] == Named && s.phase[1] == Joined
            && 0 in s.nodeId && 1 in s.nodeId && s.nodeId[0] == s.nodeId[1]
  {
    states, steps := [Initial(servers)], [];
    hide Run;
    RunOfNothing(servers);
    states, steps := Extend(servers, states, steps, Dial(0));
    states, steps := Extend(servers, states, steps, Accept(0));
    states, steps := Extend(servers, states, steps, Name(0));
    states, steps := Extend(servers, states, steps, GiveUp);
    states, steps := Extend(servers, states, steps, Dial(1));
    states, steps := Extend(servers, states, steps, Accept(1));
    states, steps := Extend(servers, states, steps, Name(1));
    states, steps := Extend(servers, states, steps, Assign);
    states, steps := Extend(servers, states, steps, Join(1));
  }

  lemma RunOfNothing(servers: nat)
    ensures Run(servers, [Initial(servers)], [])
  {
  }
}
