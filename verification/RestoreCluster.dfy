/**
 * The procedure that brings a cluster back to its baseline: a controller with deadlines that
 * faces any answers the cluster may give.
 */
module RestoreCluster {
  import opened Wrappers

  const REBOOT_WAIT := 240.0
  const HEALTHY_WAIT := 180.0
  const SWITCHOVER_WAIT := 90.0
  const VIP_RETURN_WAIT := 30.0

  datatype Node = Node(name: string)

  datatype Role = Primary | Master | Replica | OtherRole
  datatype MemberState = Streaming | Running | Stopped | OtherState

  datatype Member = Member(reachable: bool, role: Role, state: MemberState) {
    predicate IsLeader() { reachable && (role.Primary? || role.Master?) }

    predicate IsReplica() { reachable && role.Replica? }
  }

  type Members = map<Node, Member>

  datatype Facts = Facts(patroniActive: bool, patroniEnabled: bool, openproxyActive: bool)

  datatype Config = Config(nodes: seq<Node>, primary: Node, vipOwner: Node, standbyProxy: Node) {
    function ProxyNodes(): seq<Node> { [vipOwner, standbyProxy] }
  }

  datatype Stage = Reboot(node: Node) | Healthy | Switchover | VipReturn
  datatype Failure = ScenarioError(stage: Stage) | ClusterError | UnknownNode

  // ----- reading answers ------------------------------------------------------------------

  lemma OneMember(s: set<Node>, a: Node, b: Node)
    requires |s| == 1 && a in s && b in s
    ensures a == b
  {
    assert |s - {a}| == 0;
    assert b !in s - {a};
  }

  lemma SoleOf(members: Members, leaders: set<Node>)
    requires leaders == set n | n in members && members[n].IsLeader()
    requires |leaders| == 1
    ensures forall n | n in leaders :: SoleLeader(members, n)
    ensures forall a, b | a in leaders && b in leaders :: a == b
  {
    forall a, b | a in leaders && b in leaders
      ensures a == b
    {
      OneMember(leaders, a, b);
    }
    forall n | n in leaders
      ensures SoleLeader(members, n)
    {
      assert forall m | m in members && members[m].IsLeader() :: m in leaders;
    }
  }

  /** The one node that says it leads. */
  function Leader(members: Members): (r: Option<Node>)
    ensures r.Some? <==> exists n :: SoleLeader(members, n)
    ensures r.Some? ==> SoleLeader(members, r.value)
  {
    var leaders := set n | n in members && members[n].IsLeader();
    if |leaders| == 1 then
      SoleOf(members, leaders);
      var n :| n in leaders;
      Some(n)
    else
      assert forall n | SoleLeader(members, n) :: leaders == {n};
      None
  }

  ghost predicate SoleLeader(members: Members, leader: Node) {
    && leader in members
    && members[leader].IsLeader()
    && forall n | n in members && members[n].IsLeader() :: n == leader
  }

  predicate AllStreaming(members: Members) {
    var leader := Leader(members);
    leader.Some? && forall n | n in members && n != leader.value :: members[n].IsReplica() && members[n].state.Streaming?
  }

  predicate NeedsRevival(members: Members, node: Node, facts: Facts) {
    || node !in members
    || !members[node].reachable
    || members[node].state.Stopped?
    || !facts.patroniActive
    || !facts.patroniEnabled
  }

  predicate OnlyHolder(holders: map<Node, Option<bool>>, owner: Node) {
    (set n | n in holders && holders[n] == Some(true)) == {owner}
  }

  // ----- what was seen and done -----------------------------------------------------------

  datatype Event =
    | Tried(node: Node, ok: bool)
    | Saw(members: Members)
    | Inspected(node: Node, facts: Facts)
    | Revive(node: Node)
    | StartProxy(node: Node)
    | SwitchOver(leader: Node, to: Node)
    | SawHolders(holders: map<Node, Option<bool>>)
    | Failed

  function Revivals(log: seq<Event>, node: Node): nat {
    if log == [] then 0
    else Revivals(log[..|log| - 1], node) + if log[|log| - 1] == Revive(node) then 1 else 0
  }

  function Switchovers(log: seq<Event>): nat {
    if log == [] then 0 else Switchovers(log[..|log| - 1]) + if log[|log| - 1].SwitchOver? then 1 else 0
  }

  /** The log grew, but neither by a revival nor by a switchover. */
  ghost predicate SameCommands(before: seq<Event>, after: seq<Event>) {
    && before <= after
    && (forall i | |before| <= i < |after| :: !after[i].Revive? && !after[i].SwitchOver?)
    && (forall n :: Revivals(after, n) == Revivals(before, n))
    && Switchovers(after) == Switchovers(before)
  }

  lemma Counted(log: seq<Event>, e: Event)
    ensures forall n :: Revivals(log + [e], n) == Revivals(log, n) + if e == Revive(n) then 1 else 0
    ensures Switchovers(log + [e]) == Switchovers(log) + if e.SwitchOver? then 1 else 0
  {
    assert (log + [e])[..|log|] == log;
  }

  function Revival(members: Members, node: Node, facts: Facts): seq<Event> {
    [Inspected(node, facts)] + if NeedsRevival(members, node, facts) then [Revive(node)] else []
  }

  /** What reviving does: read each node's facts in turn and revive the node if they call for it. */
  function RevivalScript(nodes: seq<Node>, members: Members, answers: seq<Facts>): seq<Event>
    requires |answers| == |nodes|
  {
    if nodes == [] then []
    else
      var last := |nodes| - 1;
      RevivalScript(nodes[..last], members, answers[..last]) + Revival(members, nodes[last], answers[last])
  }

  function Start(node: Node, facts: Facts): seq<Event> {
    [Inspected(node, facts)] + if facts.openproxyActive then [] else [StartProxy(node)]
  }

  /** The same for the proxies that are not running. */
  function ProxyScript(nodes: seq<Node>, answers: seq<Facts>): seq<Event>
    requires |answers| == |nodes|
  {
    if nodes == [] then []
    else
      var last := |nodes| - 1;
      ProxyScript(nodes[..last], answers[..last]) + Start(nodes[last], answers[last])
  }

  /** Every node answered in this stretch of the log. */
  ghost predicate AllReached(nodes: seq<Node>, log: seq<Event>, from: nat, to: nat) {
    from <= to <= |log| && forall n | n in nodes :: exists i :: from <= i < to && log[i] == Tried(n, true)
  }

  /** A node that the view or its own facts show as down, or whose services do not start by themselves. */
  ghost predicate LooksDown(members: Members, node: Node, facts: Facts) {
    !(node in members && members[node].reachable && !members[node].state.Stopped?)
    || !(facts.patroniActive && facts.patroniEnabled)
  }

  /** The node was inspected in this stretch and, if the view or the facts call for it, revived at once. */
  ghost predicate Tended(log: seq<Event>, view: Members, from: nat, to: nat, node: Node) {
    to <= |log| && exists i :: from <= i < to && TendedAt(log, view, i, to, node)
  }

  ghost predicate TendedAt(log: seq<Event>, view: Members, i: int, to: nat, node: Node)
    requires 0 <= i < to <= |log|
  {
    && log[i].Inspected? && log[i].node == node
    && (LooksDown(view, node, log[i].facts) ==> i + 1 < to && log[i + 1] == Revive(node))
  }

  /** The proxy node was inspected in this stretch and, if its proxy was not active, started at once. */
  ghost predicate Served(log: seq<Event>, from: nat, to: nat, node: Node) {
    to <= |log| && exists i :: from <= i < to && ServedAt(log, i, to, node)
  }

  ghost predicate ServedAt(log: seq<Event>, i: int, to: nat, node: Node)
    requires 0 <= i < to <= |log|
  {
    && log[i].Inspected? && log[i].node == node
    && (!log[i].facts.openproxyActive ==> i + 1 < to && log[i + 1] == StartProxy(node))
  }

  /** No node is revived without cause. */
  ghost predicate RevivedForCause(log: seq<Event>, view: Members, from: nat) {
    forall k | from <= k < |log| && log[k].Revive? ::
      k > from && log[k - 1].Inspected? && log[k - 1].node == log[k].node && LooksDown(view, log[k].node, log[k - 1].facts)
  }

  /** Where in the log a normal return finds what it rests on. */
  datatype Witness = Witness(reached: nat, streaming: nat, led: nat, moved: bool)

  /**
   * What stands before the leader is looked at: every node reachable, then the one view and the
   * facts by which nodes are revived and proxies started, then all streaming.
   */
  ghost predicate BroughtUp(config: Config, log: seq<Event>, from: nat, reached: nat, streaming: nat) {
    && AllReached(config.nodes, log, from, reached)
    && reached < streaming < |log|
    && log[reached].Saw?
    && (forall n | n in config.nodes :: Tended(log, log[reached].members, reached, streaming, n))
    && (forall n | n in config.ProxyNodes() :: Served(log, reached, streaming, n))
    && RevivedForCause(log, log[reached].members, from)
    && log[streaming].Saw? && AllStreaming(log[streaming].members)
  }

  /**
   * The observations a normal return rests on, in order: all nodes up, then the configured
   * primary as sole leader (moved there from another sole leader, with all streaming again, or
   * already there), and last the address on its owner.
   */
  ghost predicate Milestones(config: Config, log: seq<Event>, from: nat, w: Witness) {
    && BroughtUp(config, log, from, w.reached, w.streaming)
    && LeaderReturned(config, log, w.streaming + 1, w.led, w.moved)
    && w.led < |log| - 1
    && log[|log| - 1].SawHolders? && OnlyHolder(log[|log| - 1].holders, config.vipOwner)
  }

  ghost predicate LeaderReturned(config: Config, log: seq<Event>, from: nat, led: nat, moved: bool) {
    && from <= led < |log|
    && log[led].Saw? && SoleLeader(log[led].members, config.primary)
    && log[from].Saw?
    && if !moved then led == from
       else
         && from + 1 < led && led + 1 < |log|
         && log[from + 1].SwitchOver? && log[from + 1].to == config.primary != log[from + 1].leader
         && SoleLeader(log[from].members, log[from + 1].leader)
         && log[led + 1].Saw? && AllStreaming(log[led + 1].members)
  }

  ghost predicate LeadsStreaming(members: Members, l: Node) {
    && l in members && members[l].reachable && members[l].role in {Role.Primary, Role.Master}
    && forall n | n in members && n != l ::
         members[n].reachable && members[n].role == Role.Replica && members[n].state == MemberState.Streaming
  }

  /** All streaming: some node leads and every other one is a reachable, streaming replica. */
  lemma StreamingMeans(members: Members)
    ensures AllStreaming(members) <==> exists l :: LeadsStreaming(members, l)
  {
    if AllStreaming(members) {
      var l := Leader(members).value;
      assert members[l].IsLeader();
      assert LeadsStreaming(members, l);
    }
    if l :| LeadsStreaming(members, l) {
      assert SoleLeader(members, l);
    }
  }

  lemma SoleLeaderMeans(members: Members, l: Node)
    ensures SoleLeader(members, l) <==>
      && l in members && members[l].reachable && members[l].role in {Role.Primary, Role.Master}
      && forall n | n in members && n != l :: !members[n].reachable || members[n].role !in {Role.Primary, Role.Master}
  {
  }

  lemma OnlyHolderMeans(holders: map<Node, Option<bool>>, owner: Node)
    ensures OnlyHolder(holders, owner) <==>
      && owner in holders && holders[owner] == Some(true)
      && forall n | n in holders && n != owner :: holders[n] != Some(true)
  {
    var held := set n | n in holders && holders[n] == Some(true);
    if owner in held && forall n | n in holders && n != owner :: holders[n] != Some(true) {
      assert forall n | n in held :: n == owner;
      assert held == {owner};
    } else if held == {owner} {
      assert owner in held;
      assert forall n | n in holders && holders[n] == Some(true) :: n in held;
    }
  }

  datatype Goal = StreamingEverywhere | PrimaryLeads | OwnerHolds

  function Limit(goal: Goal): real {
    match goal
    case StreamingEverywhere => HEALTHY_WAIT
    case PrimaryLeads => SWITCHOVER_WAIT
    case OwnerHolds => VIP_RETURN_WAIT
  }

  /** The last observations of the log, made from a given point on, show the goal. */
  ghost predicate Reaches(config: Config, goal: Goal, log: seq<Event>, from: nat) {
    match goal
    case StreamingEverywhere =>
      from < |log| && log[|log| - 1].Saw? && AllStreaming(log[|log| - 1].members)
    case PrimaryLeads =>
      && from + 1 < |log|
      && log[|log| - 2].Saw? && SoleLeader(log[|log| - 2].members, config.primary)
      && log[|log| - 1].Saw? && AllStreaming(log[|log| - 1].members)
    case OwnerHolds =>
      from < |log| && log[|log| - 1].SawHolders? && OnlyHolder(log[|log| - 1].holders, config.vipOwner)
  }

  /** The last observation shows that the goal is not met. */
  ghost predicate Misses(config: Config, goal: Goal, log: seq<Event>, from: nat) {
    && from < |log|
    && var last := log[|log| - 1];
      match goal
      case StreamingEverywhere => last.Saw? && !AllStreaming(last.members)
      case PrimaryLeads => last.Saw? && (!SoleLeader(last.members, config.primary) || !AllStreaming(last.members))
      case OwnerHolds => last.SawHolders? && !OnlyHolder(last.holders, config.vipOwner)
  }

  // ----- the cluster and the clock --------------------------------------------------------

  /** Any answers at all: each may depend on how many questions came before it. */
  datatype World = World(
    sshOk: (nat, Node) -> bool,
    scan: nat -> Option<map<Node, Member>>,
    facts: (nat, Node) -> Facts,
    command: nat -> bool,
    holders: (nat, Node) -> Option<bool>)

  /** The event with this number is what the world answers to the question with this number. */
  ghost predicate Answered(config: Config, world: World, i: nat, e: Event) {
    match e
    case Tried(node, ok) => ok == world.sshOk(i, node)
    case Saw(members) =>
      && world.scan(i).Some?
      && (forall n :: n in members <==> n in config.nodes)
      && (forall n | n in members ::
            if n in world.scan(i).value then members[n] == world.scan(i).value[n] else !members[n].reachable)
    case Inspected(node, facts) => facts == world.facts(i, node)
    case SawHolders(holders) =>
      && (forall n :: n in holders <==> n in config.ProxyNodes())
      && (forall n | n in holders :: holders[n] == world.holders(i, n))
    case Failed => world.scan(i).None?
    case _ => true
  }

  /** Nothing in the log is made up. */
  ghost predicate Faithful(config: Config, world: World, log: seq<Event>) {
    forall i | 0 <= i < |log| :: Answered(config, world, i, log[i])
  }

  lemma FaithfulNext(config: Config, world: World, log: seq<Event>, e: Event)
    requires Faithful(config, world, log) && Answered(config, world, |log|, e)
    ensures Faithful(config, world, log + [e])
  {
  }

  predicate IsCommand(e: Event) { e.Revive? || e.StartProxy? || e.SwitchOver? }

  /** From here on every scan was answered and every command was carried out. */
  ghost predicate Smooth(world: World, log: seq<Event>, from: nat) {
    forall i | from <= i < |log| :: !log[i].Failed? && (IsCommand(log[i]) ==> world.command(i))
  }

  class Controller {
    const config: Config
    const world: World
    var now: real
    var asked: nat
    ghost var log: seq<Event>

    /** Questions are numbered by the log, and the log holds the world's answers to them. */
    ghost predicate Valid()
      reads this
    {
      asked == |log| && Faithful(config, world, log)
    }

    constructor (config: Config, world: World, now: real)
      ensures this.config == config && this.world == world && this.now == now && log == []
      ensures Valid()
    {
      this.config, this.world, this.now := config, world, now;
      asked, log := 0, [];
    }

    method Sleep(seconds: real)
      requires seconds > 0.0
      modifies `now
      ensures now == old(now) + seconds
    {
      now := now + seconds;
    }

    method SshOk(node: Node) returns (ok: bool)
      requires Valid()
      modifies `asked, `log
      ensures Valid()
      ensures log == old(log) + [Tried(node, ok)] && SameCommands(old(log), log)
    {
      ok := world.sshOk(asked, node);
      Counted(log, Tried(node, ok));
      FaithfulNext(config, world, log, Tried(node, ok));
      asked, log := asked + 1, log + [Tried(node, ok)];
    }

    /** One view with an entry for every configured node; a node missing from the scan is unreachable. */
    method ReadMembers() returns (r: Result<Members, Failure>)
      requires Valid()
      modifies `asked, `log
      ensures Valid()
      ensures SameCommands(old(log), log)
      ensures r.Ok? ==> log == old(log) + [Saw(r.value)] && forall n :: n in r.value <==> n in config.nodes
      ensures r.Ok? ==> world.scan(old(asked)).Some? && forall n | n in r.value ::
        if n in world.scan(old(asked)).value then r.value[n] == world.scan(old(asked)).value[n]
        else !r.value[n].reachable
      ensures r.Err? ==> r.error == ClusterError && log == old(log) + [Failed]
      ensures r.Err? <==> world.scan(old(asked)).None?
    {
      hide Faithful;
      var found := world.scan(asked);
      if found.None? {
        Counted(log, Failed);
        FaithfulNext(config, world, log, Failed);
        asked, log := asked + 1, log + [Failed];
        return Err(ClusterError);
      }
      var members := map n | n in config.nodes :: if n in found.value then found.value[n] else Member(false, OtherRole, OtherState);
      Counted(log, Saw(members));
      FaithfulNext(config, world, log, Saw(members));
      asked, log := asked + 1, log + [Saw(members)];
      r := Ok(members);
    }

    method ReadFacts(node: Node) returns (facts: Facts)
      requires Valid()
      modifies `asked, `log
      ensures Valid()
      ensures log == old(log) + [Inspected(node, facts)] && SameCommands(old(log), log)
    {
      facts := world.facts(asked, node);
      Counted(log, Inspected(node, facts));
      FaithfulNext(config, world, log, Inspected(node, facts));
      asked, log := asked + 1, log + [Inspected(node, facts)];
    }

    method ReadHolders() returns (holders: map<Node, Option<bool>>)
      requires Valid()
      modifies `asked, `log
      ensures Valid()
      ensures log == old(log) + [SawHolders(holders)] && SameCommands(old(log), log)
    {
      holders := map n | n in config.ProxyNodes() :: world.holders(asked, n);
      Counted(log, SawHolders(holders));
      FaithfulNext(config, world, log, SawHolders(holders));
      asked, log := asked + 1, log + [SawHolders(holders)];
    }

    /** Any command may fail after it was sent. */
    method Send(command: Event) returns (r: Result<(), Failure>)
      requires command.Revive? || command.StartProxy? || command.SwitchOver?
      requires Valid()
      modifies `asked, `log
      ensures Valid()
      ensures r.Ok? <==> world.command(old(asked))
      ensures log == old(log) + [command]
      ensures forall n :: Revivals(log, n) == Revivals(old(log), n) + if command == Revive(n) then 1 else 0
      ensures Switchovers(log) == Switchovers(old(log)) + if command.SwitchOver? then 1 else 0
      ensures r.Err? ==> r.error == ClusterError
    {
      var ok := world.command(asked);
      Counted(log, command);
      FaithfulNext(config, world, log, command);
      asked, log := asked + 1, log + [command];
      r := if ok then Ok(()) else Err(ClusterError);
    }

    // ----- the waiting loop ---------------------------------------------------------------

    method Holds(goal: Goal) returns (r: Result<bool, Failure>)
      requires Valid()
      modifies `asked, `log
      ensures Valid()
      ensures r.Ok? ==> Smooth(world, log, |old(log)|)
      ensures SameCommands(old(log), log)
      ensures r.Ok? ==> if r.value then Reaches(config, goal, log, |old(log)|) else Misses(config, goal, log, |old(log)|)
      ensures r.Err? ==> r.error == ClusterError
    {
      hide Faithful;
      match goal
      case StreamingEverywhere =>
        var members := ReadMembers();
        if members.Err? {
          return Err(members.error);
        }
        r := Ok(AllStreaming(members.value));
      case PrimaryLeads =>
        var members := ReadMembers();
        if members.Err? {
          return Err(members.error);
        }
        if Leader(members.value) != Some(config.primary) {
          return Ok(false);
        }
        ghost var led := log;
        var again := ReadMembers();
        if again.Err? {
          return Err(again.error);
        }
        assert log[|log| - 2] == led[|led| - 1];
        r := Ok(AllStreaming(again.value));
      case OwnerHolds =>
        var holders := ReadHolders();
        r := Ok(OnlyHolder(holders, config.vipOwner));
    }

    /** Check, sleep two seconds and check again until the limit; then check once more. */
    method WaitUntil(goal: Goal) returns (r: Result<bool, Failure>, ghost from: nat)
      requires Valid()
      modifies `now, `asked, `log
      ensures Valid()
      ensures r.Ok? ==> Smooth(world, log, |old(log)|)
      ensures SameCommands(old(log), log)
      ensures old(now) <= now < old(now) + Limit(goal) + 2.0
      ensures from >= |old(log)|
      ensures r.Ok? ==> if r.value then Reaches(config, goal, log, from) else Misses(config, goal, log, from)
      ensures r == Ok(false) ==> now >= old(now) + Limit(goal)
      ensures r.Err? ==> r.error == ClusterError
    {
      hide Faithful;
      var started := now;
      from := |log|;
      while now - started < Limit(goal)
        invariant Valid() && Smooth(world, log, |old(log)|)
        invariant SameCommands(old(log), log)
        invariant started <= now < started + Limit(goal) + 2.0
        invariant from == |log|
        decreases Limit(goal) - (now - started)
      {
        r := Holds(goal);
        if r.Err? || r.value {
          return;
        }
        Sleep(2.0);
        from := |log|;
      }
      r := Holds(goal);
    }

    // ----- the procedure ------------------------------------------------------------------

    method AwaitNode(node: Node, started: real) returns (r: Result<(), Failure>)
      requires started <= now <= started + REBOOT_WAIT + 3.0
      requires Valid()
      modifies `now, `asked, `log
      ensures Valid()
      ensures r.Ok? ==> Smooth(world, log, |old(log)|)
      ensures SameCommands(old(log), log)
      ensures old(now) <= now <= started + REBOOT_WAIT + 3.0
      ensures |log| > |old(log)| && log[|log| - 1] == Tried(node, r.Ok?)
      ensures r.Err? ==> r.error == ScenarioError(Reboot(node)) && now - started > REBOOT_WAIT
    {
      hide Faithful;
      var ok := SshOk(node);
      while !ok
        invariant Valid() && Smooth(world, log, |old(log)|)
        invariant SameCommands(old(log), log)
        invariant |log| > |old(log)| && log[|log| - 1] == Tried(node, ok)
        invariant old(now) <= now <= started + REBOOT_WAIT + 3.0
        decreases started + REBOOT_WAIT + 3.0 - now, !ok
      {
        if now - started > REBOOT_WAIT {
          return Err(ScenarioError(Reboot(node)));
        }
        Sleep(3.0);
        ok := SshOk(node);
      }
      r := Ok(());
    }

    method AwaitNodes(started: real) returns (r: Result<(), Failure>)
      requires now == started
      requires Valid()
      modifies `now, `asked, `log
      ensures Valid()
      ensures r.Ok? ==> Smooth(world, log, |old(log)|)
      ensures SameCommands(old(log), log)
      ensures started <= now <= started + REBOOT_WAIT + 3.0
      ensures r.Ok? ==> AllReached(config.nodes, log, |old(log)|, |log|)
      ensures r.Err? ==> r.error.ScenarioError? && r.error.stage.Reboot? && now - started > REBOOT_WAIT
      ensures r.Err? ==>
        && r.error.stage.node in config.nodes
        && |log| > |old(log)| && log[|log| - 1] == Tried(r.error.stage.node, false)
    {
      hide Faithful;
      for i := 0 to |config.nodes|
        invariant Valid() && Smooth(world, log, |old(log)|)
        invariant SameCommands(old(log), log)
        invariant started <= now <= started + REBOOT_WAIT + 3.0
        invariant AllReached(config.nodes[..i], log, |old(log)|, |log|)
      {
        ghost var before := log;
        r := AwaitNode(config.nodes[i], started);
        if r.Err? {
          return;
        }
        ReachedMore(config.nodes, i, before, log, |old(log)|);
      }
      assert config.nodes[..|config.nodes|] == config.nodes;
      r := Ok(());
    }

    method ReviveIfDown(members: Members, node: Node) returns (r: Result<(), Failure>, ghost facts: Facts)
      requires Valid()
      modifies `asked, `log
      ensures Valid()
      ensures r.Ok? ==> Smooth(world, log, |old(log)|)
      ensures log == old(log) + Revival(members, node, facts)
      ensures Switchovers(log) == Switchovers(old(log))
      ensures forall n :: Revivals(log, n) <= Revivals(old(log), n) + if n == node then 1 else 0
      ensures r.Err? ==> r.error == ClusterError
    {
      hide Faithful;
      var seen := ReadFacts(node);
      facts := seen;
      if NeedsRevival(members, node, seen) {
        r := Send(Revive(node));
      } else {
        r := Ok(());
      }
    }

    /** Revive exactly the nodes that the one view or their own facts show as down or disabled. */
    method ReviveStacks() returns (r: Result<(), Failure>, ghost answers: seq<Facts>)
      requires Valid()
      modifies `asked, `log
      ensures Valid()
      ensures r.Ok? ==> Smooth(world, log, |old(log)|)
      ensures old(log) <= log
      ensures Switchovers(log) == Switchovers(old(log))
      ensures forall n :: Revivals(log, n) <= Revivals(old(log), n) + multiset(config.nodes)[n]
      ensures r.Ok? ==>
        && |answers| == |config.nodes| && |log| > |old(log)|
        && var view := log[|old(log)|];
        && view.Saw?
        && log == old(log) + [view] + RevivalScript(config.nodes, view.members, answers)
        && (forall n | n in config.nodes :: Tended(log, view.members, |old(log)|, |log|, n))
        && RevivedForCause(log, view.members, |old(log)|)
      ensures r.Err? ==> r.error == ClusterError
    {
      hide Revival, Revivals, Switchovers, Faithful, Tended, RevivedForCause;
      answers := [];
      var members := ReadMembers();
      if members.Err? {
        return Err(members.error), [];
      }
      ghost var view := log;
      FirstView(log, members.value, |old(log)|);
      assert config.nodes[..|config.nodes|] == config.nodes;
      for i := 0 to |config.nodes|
        invariant view <= log && |answers| == i
        invariant Valid() && Smooth(world, log, |old(log)|)
        invariant forall n | n in config.nodes[..i] :: Tended(log, members.value, |old(log)|, |log|, n)
        invariant RevivedForCause(log, members.value, |old(log)|)
        invariant Switchovers(log) == Switchovers(old(log))
        invariant forall n :: Revivals(log, n) <= Revivals(old(log), n) + multiset(config.nodes[..i])[n]
        invariant log == view + RevivalScript(config.nodes[..i], members.value, answers)
      {
        ghost var before := log;
        ghost var facts;
        r, facts := ReviveIfDown(members.value, config.nodes[i]);
        CountUpTo(config.nodes, i);
        if r.Err? {
          return;
        }
        ScriptStep(config.nodes, i, members.value, answers, facts);
        TendNext(config.nodes, i, members.value, |old(log)|, before, facts);
        assert log == view + RevivalScript(config.nodes[..i + 1], members.value, answers + [facts]);
        answers := answers + [facts];
      }
      r := Ok(());
    }

    method StartIfStopped(node: Node) returns (r: Result<(), Failure>, ghost facts: Facts)
      requires Valid()
      modifies `asked, `log
      ensures Valid()
      ensures r.Ok? ==> Smooth(world, log, |old(log)|)
      ensures SameCommands(old(log), log)
      ensures log == old(log) + Start(node, facts)
      ensures r.Err? ==> r.error == ClusterError
    {
      hide Faithful;
      var seen := ReadFacts(node);
      facts := seen;
      if seen.openproxyActive {
        r := Ok(());
      } else {
        r := Send(StartProxy(node));
      }
    }

    method StartProxies() returns (r: Result<(), Failure>, ghost answers: seq<Facts>)
      requires Valid()
      modifies `asked, `log
      ensures Valid()
      ensures r.Ok? ==> Smooth(world, log, |old(log)|)
      ensures SameCommands(old(log), log)
      ensures r.Ok? ==>
        && |answers| == |config.ProxyNodes()| && log == old(log) + ProxyScript(config.ProxyNodes(), answers)
        && forall n | n in config.ProxyNodes() :: Served(log, |old(log)|, |log|, n)
      ensures r.Err? ==> r.error == ClusterError
    {
      hide Start, Revivals, Switchovers, Faithful, Served;
      answers := [];
      var proxies := config.ProxyNodes();
      for i := 0 to |proxies|
        invariant Valid() && Smooth(world, log, |old(log)|)
        invariant forall n | n in proxies[..i] :: Served(log, |old(log)|, |log|, n)
        invariant SameCommands(old(log), log) && |answers| == i
        invariant log == old(log) + ProxyScript(proxies[..i], answers)
      {
        ghost var before := log;
        ghost var facts;
        r, facts := StartIfStopped(proxies[i]);
        if r.Err? {
          return;
        }
        ProxyStep(proxies, i, answers, facts);
        ServeNext(proxies, i, |old(log)|, before, facts);
        assert log == old(log) + ProxyScript(proxies[..i + 1], answers + [facts]);
        answers := answers + [facts];
      }
      assert proxies[..|proxies|] == proxies;
      r := Ok(());
    }

    /** Move the leadership back unless the configured primary already is the sole leader. */
    method ReturnLeader() returns (r: Result<bool, Failure>, ghost led: nat)
      requires Valid()
      modifies `now, `asked, `log
      ensures Valid()
      ensures r.Ok? ==> Smooth(world, log, |old(log)|)
      ensures old(log) <= log
      ensures old(now) <= now < old(now) + SWITCHOVER_WAIT + 2.0
      ensures forall n :: Revivals(log, n) == Revivals(old(log), n)
      ensures Switchovers(log) <= Switchovers(old(log)) + 1
      ensures r.Ok? ==> Switchovers(log) == Switchovers(old(log)) + if r.value then 1 else 0
      ensures r.Ok? ==> LeaderReturned(config, log, |old(log)|, led, r.value)
      ensures forall i | |old(log)| <= i < |log| :: !log[i].Revive?
      ensures r == Err(ScenarioError(Switchover)) ==>
        now >= old(now) + SWITCHOVER_WAIT && Misses(config, PrimaryLeads, log, |old(log)|)
      ensures r.Err? ==> r.error in {ClusterError, UnknownNode, ScenarioError(Switchover)}
    {
      hide Revivals, Switchovers, Leader, AllStreaming, SoleLeader, Faithful;
      led := 0;
      var members := ReadMembers();
      if members.Err? {
        return Err(members.error), 0;
      }
      var leader := Leader(members.value);
      if leader == Some(config.primary) {
        return Ok(false), |log| - 1;
      }
      if leader.None? {
        return Err(UnknownNode), 0;
      }
      var sent := Send(SwitchOver(leader.value, config.primary));
      if sent.Err? {
        return Err(sent.error), 0;
      }
      var healthy, from := WaitUntil(PrimaryLeads);
      if healthy.Err? {
        return Err(healthy.error), 0;
      }
      if !healthy.value {
        return Err(ScenarioError(Switchover)), 0;
      }
      return Ok(true), |log| - 2;
    }

    /** The steps up to the wait for streaming. */
    method BringUp() returns (r: Result<(), Failure>, ghost reached: nat)
      requires Valid()
      modifies `now, `asked, `log
      ensures Valid() && old(log) <= log
      ensures r.Ok? ==> Smooth(world, log, |old(log)|)
      ensures old(now) <= now <= old(now) + 243.0 + 182.0
      ensures forall n :: Revivals(log, n) <= Revivals(old(log), n) + multiset(config.nodes)[n]
      ensures Switchovers(log) == Switchovers(old(log))
      ensures r.Ok? ==> |log| > |old(log)| && BroughtUp(config, log, |old(log)|, reached, |log| - 1)
      ensures r.Err? && r.error.ScenarioError? ==> r.error.stage.Reboot? || r.error.stage.Healthy?
      ensures r.Err? && r.error.ScenarioError? && r.error.stage.Reboot? ==>
        && now - old(now) > 240.0 && SameCommands(old(log), log)
        && |log| > |old(log)| && log[|log| - 1] == Tried(r.error.stage.node, false)
      ensures r == Err(ScenarioError(Healthy)) ==>
        now - old(now) >= 180.0 && Misses(config, StreamingEverywhere, log, |old(log)|)
    {
      hide RevivalScript, ProxyScript, Revivals, Switchovers, AllStreaming, AllReached, Faithful,
        Tended, Served, RevivedForCause, Misses, Smooth;
      reached := 0;
      r := AwaitNodes(now);
      if r.Err? {
        return;
      }
      reached := |log|;
      ghost var booted := log;
      ghost var answers;
      r, answers := ReviveStacks();
      if r.Err? {
        return;
      }
      ghost var revived := log;
      r, answers := StartProxies();
      if r.Err? {
        return;
      }
      ghost var started := log;
      var healthy, from := WaitUntil(StreamingEverywhere);
      if healthy.Err? {
        return Err(healthy.error), reached;
      }
      if !healthy.value {
        MissesSince(config, StreamingEverywhere, log, from, |old(log)|);
        return Err(ScenarioError(Healthy)), reached;
      }
      SmoothJoin(world, booted, revived, |old(log)|);
      SmoothJoin(world, revived, started, |old(log)|);
      SmoothJoin(world, started, log, |old(log)|);
      ReachedStill(config.nodes, booted, log, |old(log)|, |booted|);
      TendedLater(config.nodes, revived, log, log[reached].members, reached, |log| - 1);
      ServedLater(config.ProxyNodes(), started, log, |revived|, reached, |log| - 1);
      CauseLater(booted, revived, log, log[reached].members, |old(log)|);
      r := Ok(());
    }

    /**
     * Whatever the cluster answers, the procedure ends in bounded time, revives a node at most
     * as often as the configuration lists it, switches over at most once, and returns normally
     * only on the milestones.
     */
    method Restore() returns (r: Result<(), Failure>, ghost w: Witness)
      requires Valid()
      modifies `now, `asked, `log
      ensures Valid() && old(log) <= log
      ensures r.Ok? ==> Smooth(world, log, |old(log)|)
      ensures old(now) <= now <= old(now) + 243.0 + 182.0 + 92.0 + 32.0
      ensures forall n :: Revivals(log, n) <= Revivals(old(log), n) + multiset(config.nodes)[n]
      ensures Switchovers(log) <= Switchovers(old(log)) + 1
      ensures r.Ok? ==> Milestones(config, log, |old(log)|, w)
      ensures r.Ok? ==> Switchovers(log) == Switchovers(old(log)) + if w.moved then 1 else 0
      ensures r.Err? && r.error.ScenarioError? && r.error.stage.Reboot? ==>
        && now - old(now) > 240.0 && SameCommands(old(log), log)
        && |log| > |old(log)| && log[|log| - 1] == Tried(r.error.stage.node, false)
      ensures r == Err(ScenarioError(Healthy)) ==>
        now - old(now) >= 180.0 && Misses(config, StreamingEverywhere, log, |old(log)|)
      ensures r == Err(ScenarioError(Switchover)) ==>
        now - old(now) >= 90.0 && Misses(config, PrimaryLeads, log, |old(log)|)
      ensures r == Err(ScenarioError(VipReturn)) ==>
        now - old(now) >= 30.0 && Misses(config, OwnerHolds, log, |old(log)|)
    {
      hide Revivals, Switchovers, AllStreaming, SoleLeader, OnlyHolder, Faithful, BroughtUp, LeaderReturned, Misses, Smooth;
      w := Witness(0, 0, 0, false);
      var up, reached := BringUp();
      if up.Err? {
        return Err(up.error), w;
      }
      ghost var streaming := log;
      var returned, led := ReturnLeader();
      if returned.Err? {
        if returned.error == ScenarioError(Switchover) {
          MissesSince(config, PrimaryLeads, log, |streaming|, |old(log)|);
        }
        return Err(returned.error), w;
      }
      ghost var leading := log;
      var home, last := WaitUntil(OwnerHolds);
      if home.Err? {
        return Err(home.error), w;
      }
      if !home.value {
        MissesSince(config, OwnerHolds, log, last, |old(log)|);
        return Err(ScenarioError(VipReturn)), w;
      }
      SmoothJoin(world, streaming, leading, |old(log)|);
      SmoothJoin(world, leading, log, |old(log)|);
      UpLater(config, streaming, log, |old(log)|, reached);
      ReturnedLater(config, leading, log, |streaming|, led, returned.value);
      w := Witness(reached, |streaming| - 1, led, returned.value);
      r := Ok(());
    }
  }

  lemma UpLater(config: Config, before: seq<Event>, after: seq<Event>, from: nat, reached: nat)
    requires before <= after && |before| > 0 && BroughtUp(config, before, from, reached, |before| - 1)
    requires forall k | |before| <= k < |after| :: !after[k].Revive?
    ensures BroughtUp(config, after, from, reached, |before| - 1)
  {
    hide AllReached, Tended, Served, RevivedForCause, AllStreaming;
    assert before[reached] == after[reached];
    ReachedStill(config.nodes, before, after, from, reached);
    var view := after[reached].members;
    forall n | n in config.nodes
      ensures Tended(after, view, reached, |before| - 1, n)
    {
      TendedMore(before, after, view, reached, |before| - 1, |before| - 1, n);
    }
    forall n | n in config.ProxyNodes()
      ensures Served(after, reached, |before| - 1, n)
    {
      ServedMore(before, after, reached, |before| - 1, reached, |before| - 1, n);
    }
    assert RevivedForCause(after, view, from) by {
      CauseStill(before, after, view, from);
    }
  }

  lemma CauseStill(before: seq<Event>, after: seq<Event>, view: Members, from: nat)
    requires before <= after && RevivedForCause(before, view, from)
    requires forall k | |before| <= k < |after| :: !after[k].Revive?
    ensures RevivedForCause(after, view, from)
  {
    assert forall k | 0 <= k < |before| :: before[k] == after[k];
    forall k | from <= k < |after| && after[k].Revive?
      ensures k > from && after[k - 1].Inspected? && after[k - 1].node == after[k].node
        && LooksDown(view, after[k].node, after[k - 1].facts)
    {
      assert before[k - 1] == after[k - 1];
    }
  }

  lemma ReachedStill(nodes: seq<Node>, before: seq<Event>, after: seq<Event>, from: nat, to: nat)
    requires before <= after && AllReached(nodes, before, from, to)
    ensures AllReached(nodes, after, from, to)
  {
    forall n | n in nodes
      ensures exists k :: from <= k < to && after[k] == Tried(n, true)
    {
      var k :| from <= k < to && before[k] == Tried(n, true);
      assert after[k] == Tried(n, true);
    }
  }

  lemma ReachedMore(nodes: seq<Node>, i: nat, before: seq<Event>, after: seq<Event>, from: nat)
    requires i < |nodes| && before <= after && |before| < |after|
    requires AllReached(nodes[..i], before, from, |before|)
    requires after[|after| - 1] == Tried(nodes[i], true)
    ensures AllReached(nodes[..i + 1], after, from, |after|)
  {
    forall n | n in nodes[..i + 1]
      ensures exists k :: from <= k < |after| && after[k] == Tried(n, true)
    {
      if n in nodes[..i] {
        var k :| from <= k < |before| && before[k] == Tried(n, true);
        assert after[k] == Tried(n, true);
      } else {
        assert after[|after| - 1] == Tried(n, true);
      }
    }
  }

  lemma SmoothJoin(world: World, before: seq<Event>, after: seq<Event>, from: nat)
    requires before <= after && Smooth(world, before, from) && Smooth(world, after, |before|)
    ensures Smooth(world, after, from)
  {
    assert forall i | 0 <= i < |before| :: before[i] == after[i];
  }

  lemma MissesSince(config: Config, goal: Goal, log: seq<Event>, from: nat, earlier: nat)
    requires Misses(config, goal, log, from) && earlier <= from
    ensures Misses(config, goal, log, earlier)
  {
  }

  lemma FirstView(log: seq<Event>, view: Members, from: nat)
    requires |log| == from + 1 && log[from].Saw?
    ensures RevivedForCause(log, view, from)
  {
  }

  lemma TendedMore(before: seq<Event>, after: seq<Event>, view: Members, from: nat, to: nat, later: nat, n: Node)
    requires before <= after && Tended(before, view, from, to, n) && to <= later <= |after|
    ensures Tended(after, view, from, later, n)
  {
    var i :| from <= i < to && TendedAt(before, view, i, to, n);
    assert TendedAt(after, view, i, later, n);
  }

  lemma TendNext(nodes: seq<Node>, i: nat, view: Members, from: nat, before: seq<Event>, facts: Facts)
    requires i < |nodes| && from < |before| && RevivedForCause(before, view, from)
    requires forall n | n in nodes[..i] :: Tended(before, view, from, |before|, n)
    ensures var after := before + Revival(view, nodes[i], facts);
      && RevivedForCause(after, view, from)
      && forall n | n in nodes[..i + 1] :: Tended(after, view, from, |after|, n)
  {
    var after := before + Revival(view, nodes[i], facts);
    assert TendedAt(after, view, |before|, |after|, nodes[i]);
    assert Tended(after, view, from, |after|, nodes[i]);
    forall n | n in nodes[..i + 1] && n != nodes[i]
      ensures Tended(after, view, from, |after|, n)
    {
      TendedMore(before, after, view, from, |before|, |after|, n);
    }
    hide Tended;
  }

  lemma TendedLater(nodes: seq<Node>, before: seq<Event>, after: seq<Event>, view: Members, from: nat, later: nat)
    requires before <= after && |before| <= later <= |after|
    requires forall n | n in nodes :: Tended(before, view, from, |before|, n)
    ensures forall n | n in nodes :: Tended(after, view, from, later, n)
  {
    hide Tended;
    forall n | n in nodes
      ensures Tended(after, view, from, later, n)
    {
      TendedMore(before, after, view, from, |before|, later, n);
    }
  }

  lemma ServedMore(before: seq<Event>, after: seq<Event>, from: nat, to: nat, earlier: nat, later: nat, n: Node)
    requires before <= after && Served(before, from, to, n) && earlier <= from && to <= later <= |after|
    ensures Served(after, earlier, later, n)
  {
    var i :| from <= i < to && ServedAt(before, i, to, n);
    assert ServedAt(after, i, later, n);
  }

  lemma ServeNext(nodes: seq<Node>, i: nat, from: nat, before: seq<Event>, facts: Facts)
    requires i < |nodes| && from <= |before|
    requires forall n | n in nodes[..i] :: Served(before, from, |before|, n)
    ensures var after := before + Start(nodes[i], facts);
      forall n | n in nodes[..i + 1] :: Served(after, from, |after|, n)
  {
    var after := before + Start(nodes[i], facts);
    assert ServedAt(after, |before|, |after|, nodes[i]);
    forall n | n in nodes[..i + 1] && n != nodes[i]
      ensures Served(after, from, |after|, n)
    {
      ServedMore(before, after, from, |before|, from, |after|, n);
    }
  }

  lemma ServedLater(nodes: seq<Node>, before: seq<Event>, after: seq<Event>, from: nat, earlier: nat, later: nat)
    requires before <= after && earlier <= from && |before| <= later <= |after|
    requires forall n | n in nodes :: Served(before, from, |before|, n)
    ensures forall n | n in nodes :: Served(after, earlier, later, n)
  {
    hide Served;
    forall n | n in nodes
      ensures Served(after, earlier, later, n)
    {
      ServedMore(before, after, from, |before|, earlier, later, n);
    }
  }

  lemma CauseLater(booted: seq<Event>, revived: seq<Event>, after: seq<Event>, view: Members, from: nat)
    requires from <= |booted| && booted <= revived <= after
    requires forall k | from <= k < |booted| :: !booted[k].Revive?
    requires forall k | |revived| <= k < |after| :: !after[k].Revive?
    requires RevivedForCause(revived, view, |booted|)
    ensures RevivedForCause(after, view, from)
  {
    assert forall k | 0 <= k < |booted| :: booted[k] == after[k];
    assert forall k | 0 <= k < |revived| :: revived[k] == after[k];
    forall k | from <= k < |after| && after[k].Revive?
      ensures k > from && after[k - 1].Inspected? && after[k - 1].node == after[k].node
        && LooksDown(view, after[k].node, after[k - 1].facts)
    {
      assert revived[k - 1] == after[k - 1];
    }
  }

  lemma ReturnedLater(config: Config, before: seq<Event>, after: seq<Event>, from: nat, led: nat, moved: bool)
    requires before <= after && LeaderReturned(config, before, from, led, moved)
    ensures LeaderReturned(config, after, from, led, moved) && led < |before|
  {
  }

  lemma ScriptStep(nodes: seq<Node>, i: nat, members: Members, answers: seq<Facts>, facts: Facts)
    requires i < |nodes| && |answers| == i
    ensures RevivalScript(nodes[..i + 1], members, answers + [facts])
         == RevivalScript(nodes[..i], members, answers) + Revival(members, nodes[i], facts)
  {
    assert nodes[..i + 1][..i] == nodes[..i] && (answers + [facts])[..i] == answers;
  }

  lemma ProxyStep(nodes: seq<Node>, i: nat, answers: seq<Facts>, facts: Facts)
    requires i < |nodes| && |answers| == i
    ensures ProxyScript(nodes[..i + 1], answers + [facts]) == ProxyScript(nodes[..i], answers) + Start(nodes[i], facts)
  {
    assert nodes[..i + 1][..i] == nodes[..i] && (answers + [facts])[..i] == answers;
  }

  lemma CountUpTo(nodes: seq<Node>, i: nat)
    requires i < |nodes|
    ensures forall n :: multiset(nodes[..i + 1])[n] == multiset(nodes[..i])[n] + if n == nodes[i] then 1 else 0
    ensures forall n :: multiset(nodes[..i + 1])[n] <= multiset(nodes)[n]
  {
    assert nodes[..i + 1] == nodes[..i] + [nodes[i]];
    assert nodes == nodes[..i + 1] + nodes[i + 1..];
  }

  /** A configuration that lists each node once revives each at most once. */
  lemma {:induction false} ListedOnce(nodes: seq<Node>, n: Node)
    requires forall i, k | 0 <= i < k < |nodes| :: nodes[i] != nodes[k]
    ensures multiset(nodes)[n] <= 1
  {
    if nodes != [] {
      ListedOnce(nodes[1..], n);
      assert nodes == [nodes[0]] + nodes[1..];
      assert nodes[0] !in nodes[1..];
    }
  }
}
