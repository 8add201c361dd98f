/**
  Binding mounted sub-agents to their platform policies: the memoised walk over a possibly cyclic
  mount graph (`_bind_subagents`, `_bind_one_subagent`). Agents are named nodes of a finite
  graph, one child per target name; fetching a policy is an arbitrary function of the name.
 */
module Subagents {
  import opened Wrappers

  datatype Tool = Plain(name: string) | Mount(target: string)

  type Graph = map<string, seq<Tool>>

  /** An agent as the visitor built it, rebuilt with new tools, or under an enforced policy. */
  datatype Agent =
    | Raw(name: string)
    | Rebuilt(name: string, tools: seq<BoundTool>)
    | Enforced(policy: string, inner: Agent)

  datatype BoundTool = Kept(tool: Tool) | Swapped(target: string, child: Agent)

  /** What the platform answers for a name: a policy, a 404, or any other failure. */
  datatype Fetch = Policy(policy: string) | NotFound | Failed(error: string)

  type Platform = string -> Fetch

  // ---- the mount graph ----

  function TargetsOf(tools: seq<Tool>): set<string> {
    set i | 0 <= i < |tools| && tools[i].Mount? :: tools[i].target
  }

  function Targets(g: Graph, name: string): set<string>
    requires name in g
  {
    TargetsOf(g[name])
  }

  ghost predicate Closed(g: Graph) {
    forall n :: n in g ==> Targets(g, n) <= g.Keys
  }

  /** A walk along mounts. */
  ghost predicate IsPath(g: Graph, p: seq<string>) {
    && (forall i :: 0 <= i < |p| ==> p[i] in g)
    && (forall i :: 0 <= i < |p| - 1 ==> p[i + 1] in Targets(g, p[i]))
  }

  ghost predicate PathFrom(g: Graph, p: seq<string>, a: string, b: string) {
    |p| >= 2 && IsPath(g, p) && p[0] == a && p[|p| - 1] == b
  }

  /** `b` is mounted somewhere under `a`. */
  ghost predicate Reachable(g: Graph, a: string, b: string) {
    exists p :: PathFrom(g, p, a, b)
  }

  lemma ReachTarget(g: Graph, a: string, b: string)
    requires Closed(g) && a in g && b in Targets(g, a)
    ensures Reachable(g, a, b)
  {
    assert PathFrom(g, [a, b], a, b);
  }

  lemma ReachThrough(g: Graph, a: string, b: string, c: string)
    requires Reachable(g, a, b) && Reachable(g, b, c)
    ensures Reachable(g, a, c)
  {
    var p :| PathFrom(g, p, a, b);
    var q :| PathFrom(g, q, b, c);
    assert PathFrom(g, p + q[1..], a, c);
  }

  /** A set closed under mounts that holds the targets of `a` holds everything under `a`. */
  lemma {:induction false} ClosedSetHoldsPath(g: Graph, black: set<string>, p: seq<string>, i: nat)
    requires black <= g.Keys && forall b :: b in black ==> Targets(g, b) <= black
    requires IsPath(g, p) && 1 <= i < |p| && Targets(g, p[0]) <= black
    ensures p[i] in black
  {
    if i > 1 {
      ClosedSetHoldsPath(g, black, p, i - 1);
    }
  }

  // ---- putting an agent together ----

  /** Mounts outside `skip` get their bound child; a child left as built leaves its tool as built. */
  function BindTool(tool: Tool, cache: map<string, Agent>, skip: set<string>): BoundTool {
    if tool.Mount? && tool.target !in skip && tool.target in cache && cache[tool.target] != Raw(tool.target)
    then Swapped(tool.target, cache[tool.target])
    else Kept(tool)
  }

  function BindTools(tools: seq<Tool>, cache: map<string, Agent>, skip: set<string>): (r: seq<BoundTool>)
    ensures |r| == |tools| && forall i :: 0 <= i < |tools| ==> r[i] == BindTool(tools[i], cache, skip)
  {
    seq(|tools|, i requires 0 <= i < |tools| => BindTool(tools[i], cache, skip))
  }

  predicate AllKept(tools: seq<BoundTool>) {
    forall i :: 0 <= i < |tools| ==> tools[i].Kept?
  }

  function Assemble(g: Graph, name: string, cache: map<string, Agent>, skip: set<string>): Agent
    requires name in g
  {
    var tools := BindTools(g[name], cache, skip);
    if AllKept(tools) then Raw(name) else Rebuilt(name, tools)
  }

  function Enforce(fetch: Fetch, agent: Agent): Agent {
    match fetch
    case Policy(p) => Enforced(p, agent)
    case _ => agent
  }

  // ---- the state of the walk ----

  /** The cache, the names in progress, every fetch made, and per cached name the mounts left as built. */
  datatype Walk = Walk(
    cache: map<string, Agent>,
    active: set<string>,
    fetched: seq<string>,
    back: map<string, set<string>>)

  predicate NoRepeats(s: seq<string>) {
    forall i, j :: 0 <= i < j < |s| ==> s[i] != s[j]
  }

  /** A mount left as built closes a cycle. */
  ghost predicate OnCycle(g: Graph, t: string, s: string)
    requires t in g
  {
    s in Targets(g, t) && (s == t || Reachable(g, s, t))
  }

  /** `t` is bound: its policy enforced or unknown, all its mounts swapped but those that close a cycle. */
  ghost predicate BoundOk(g: Graph, platform: Platform, w: Walk, t: string)
    requires t in w.cache
  {
    && t in g && t in w.back
    && !platform(t).Failed?
    && (forall s :: s in w.back[t] ==> OnCycle(g, t, s) && (s in w.cache || s in w.active))
    && Targets(g, t) - w.back[t] <= w.cache.Keys
    && w.cache[t] == Enforce(platform(t), Assemble(g, t, w.cache, w.back[t]))
  }

  ghost predicate Good(g: Graph, platform: Platform, w: Walk) {
    && w.active <= g.Keys && w.active !! w.cache.Keys
    && NoRepeats(w.fetched) && (forall t :: t in w.fetched <==> t in w.cache)
    && forall t :: t in w.cache ==> BoundOk(g, platform, w, t)
  }

  /** The cache only gains names, none of them in progress; everything new is under `name`. */
  ghost predicate Extends(g: Graph, name: string, before: Walk, after: Walk) {
    && after.active == before.active
    && before.cache.Keys <= after.cache.Keys
    && (forall t :: t in before.cache ==> after.cache[t] == before.cache[t])
    && (forall t :: t in after.cache && t !in before.cache ==> Reachable(g, name, t) && t !in before.active)
  }

  /** Names in progress are above `name`. */
  ghost predicate Above(g: Graph, active: set<string>, name: string) {
    forall a :: a in active ==> a == name || Reachable(g, a, name)
  }

  lemma AssembleStable(g: Graph, t: string, small: map<string, Agent>, large: map<string, Agent>, skip: set<string>)
    requires t in g && Targets(g, t) - skip <= small.Keys <= large.Keys
    requires forall s :: s in small ==> large[s] == small[s]
    ensures Assemble(g, t, large, skip) == Assemble(g, t, small, skip)
  {
    forall i | 0 <= i < |g[t]| ensures BindTool(g[t][i], large, skip) == BindTool(g[t][i], small, skip) {
      if g[t][i].Mount? {
        assert g[t][i].target in Targets(g, t);
      }
    }
    assert BindTools(g[t], large, skip) == BindTools(g[t], small, skip);
  }

  /** Skipping the mounts in progress is skipping those of them that are mounted. */
  lemma AssembleSkip(g: Graph, t: string, cache: map<string, Agent>, skip: set<string>)
    requires t in g
    ensures Assemble(g, t, cache, skip) == Assemble(g, t, cache, skip * Targets(g, t))
  {
    forall i | 0 <= i < |g[t]|
      ensures BindTool(g[t][i], cache, skip) == BindTool(g[t][i], cache, skip * Targets(g, t))
    {
      if g[t][i].Mount? {
        assert g[t][i].target in Targets(g, t);
      }
    }
    assert BindTools(g[t], cache, skip) == BindTools(g[t], cache, skip * Targets(g, t));
  }

  // ---- the step that finishes a target ----

  function Entered(w: Walk, target: string): Walk {
    w.(active := w.active + {target})
  }

  function Finished(w: Walk, target: string, child: Agent, left: set<string>): Walk {
    w.(cache := w.cache[target := child],
       active := w.active - {target},
       fetched := w.fetched + [target],
       back := w.back[target := left])
  }

  lemma FinishKeepsOthers(
      g: Graph, platform: Platform, w: Walk, target: string, child: Agent, left: set<string>, t: string)
    requires Good(g, platform, w) && target in w.active && t in w.cache
    ensures BoundOk(g, platform, Finished(w, target, child, left), t)
  {
    var w' := Finished(w, target, child, left);
    AssembleStable(g, t, w.cache, w'.cache, w.back[t]);
  }

  lemma FinishBindsTarget(g: Graph, platform: Platform, w: Walk, target: string, left: set<string>)
    requires Closed(g) && Good(g, platform, w) && target in w.active && !platform(target).Failed?
    requires Above(g, w.active, target) && left == w.active * Targets(g, target)
    requires Targets(g, target) <= w.cache.Keys + w.active
    ensures var child := Enforce(platform(target), Assemble(g, target, w.cache, w.active));
            BoundOk(g, platform, Finished(w, target, child, left), target)
  {
    var child := Enforce(platform(target), Assemble(g, target, w.cache, w.active));
    var w' := Finished(w, target, child, left);
    AssembleSkip(g, target, w.cache, w.active);
    AssembleStable(g, target, w.cache, w'.cache, left);
  }

  lemma FinishKeepsGood(g: Graph, platform: Platform, w: Walk, target: string, left: set<string>)
    requires Closed(g) && Good(g, platform, w) && target in w.active && !platform(target).Failed?
    requires Above(g, w.active, target) && left == w.active * Targets(g, target)
    requires Targets(g, target) <= w.cache.Keys + w.active
    ensures var child := Enforce(platform(target), Assemble(g, target, w.cache, w.active));
            Good(g, platform, Finished(w, target, child, left))
  {
    var child := Enforce(platform(target), Assemble(g, target, w.cache, w.active));
    var w' := Finished(w, target, child, left);
    forall t | t in w'.cache ensures BoundOk(g, platform, w', t) {
      if t == target {
        FinishBindsTarget(g, platform, w, target, left);
      } else {
        FinishKeepsOthers(g, platform, w, target, child, left, t);
      }
    }
  }

  // ---- the walk ----

  /** The two collections that every level of the recursion shares. */
  class BindState {
    var boundCache: map<string, Agent>
    var active: set<string>
    ghost var fetched: seq<string>
    ghost var back: map<string, set<string>>

    constructor ()
      ensures View() == Walk(map[], {}, [], map[])
    {
      boundCache, active, fetched, back := map[], {}, [], map[];
    }

    ghost function View(): Walk
      reads this
    {
      Walk(boundCache, active, fetched, back)
    }
  }

  /** Everything that `after` caches beyond `before` was left as the visitor built it. */
  ghost predicate NewAreRaw(before: Walk, after: Walk) {
    forall t :: t in after.cache && t !in before.cache ==> after.cache[t] == Raw(t)
  }

  ghost predicate FailsUnder(g: Graph, platform: Platform, name: string, error: string) {
    exists f :: Reachable(g, name, f) && platform(f) == Failed(error)
  }

  lemma FailsAbove(g: Graph, platform: Platform, name: string, target: string, error: string)
    requires Closed(g) && name in g && target in Targets(g, name)
    requires platform(target) == Failed(error) || FailsUnder(g, platform, target, error)
    ensures FailsUnder(g, platform, name, error)
  {
    ReachTarget(g, name, target);
    if FailsUnder(g, platform, target, error) {
      var f :| Reachable(g, target, f) && platform(f) == Failed(error);
      ReachThrough(g, name, target, f);
    }
  }

  lemma AboveTarget(g: Graph, active: set<string>, name: string, target: string)
    requires Closed(g) && name in g && target in Targets(g, name) && Above(g, active, name)
    ensures Above(g, active + {target}, target)
  {
    ReachTarget(g, name, target);
    forall a | a in active ensures a == target || Reachable(g, a, target) {
      if a != name {
        ReachThrough(g, a, name, target);
      }
    }
  }

  /** `_bind_one_subagent`: one fetch; a 404 leaves the child as it is, any other failure propagates. */
  method BindOneSubagent(platform: Platform, st: BindState, child: Agent, target: string)
    returns (r: Result<Agent, string>)
    modifies st`fetched
    ensures st.fetched == old(st.fetched) + [target]
    ensures r.Failure? <==> platform(target).Failed?
    ensures r.Failure? ==> platform(target) == Failed(r.error)
    ensures forall p :: platform(target) == Policy(p) ==> r == Success(Enforced(p, child))
    ensures platform(target).NotFound? ==> r == Success(child)
  {
    st.fetched := st.fetched + [target];
    match platform(target)
    case Policy(p) => return Success(Enforced(p, child));
    case NotFound => return Success(child);
    case Failed(e) => return Failure(e);
  }

  /** A target that is neither cached nor in progress: its own mounts first, then its policy. */
  method BindTarget(g: Graph, platform: Platform, st: BindState, name: string, target: string)
    returns (r: Result<Agent, string>)
    requires Closed(g) && name in g && target in Targets(g, name)
    requires Good(g, platform, st.View()) && Above(g, st.active, name)
    requires target !in st.boundCache && target !in st.active
    modifies st
    ensures st.active == old(st.active) && NoRepeats(st.fetched)
    ensures r.Failure? ==> FailsUnder(g, platform, name, r.error)
    ensures r.Success? ==> Good(g, platform, st.View()) && Extends(g, name, old(st.View()), st.View())
    ensures r.Success? ==> target in st.boundCache && r.value == st.boundCache[target]
    ensures r.Success? && r.value == Raw(target) ==> NewAreRaw(old(st.View()), st.View())
    decreases g.Keys - st.active, 0
  {
    ghost var before := st.View();
    st.active := st.active + {target};
    ghost var entered := st.View();
    AboveTarget(g, before.active, name, target);
    EnterKeepsGood(g, platform, before, target);
    var inner := BindSubagents(g, platform, st, target);
    if inner.Failure? {
      FailsAbove(g, platform, name, target, inner.error);
      st.active := st.active - {target};
      return inner;
    }
    ghost var inside := st.View();
    r := BindOneSubagent(platform, st, inner.value, target);
    st.active := st.active - {target};
    NoRepeatsAppend(inside.fetched, target);
    if r.Failure? {
      FailsAbove(g, platform, name, target, r.error);
      return;
    }
    assert r.value == Enforce(platform(target), inner.value);
    ghost var left := inside.active * Targets(g, target);
    st.boundCache := st.boundCache[target := r.value];
    st.back := st.back[target := left];
    FinishKeepsGood(g, platform, inside, target, left);
    assert st.View() == Finished(inside, target, r.value, left);
    FinishExtends(g, name, before, inside, target, r.value, left);
  }

  lemma EnterKeepsGood(g: Graph, platform: Platform, w: Walk, target: string)
    requires Good(g, platform, w) && target in g && target !in w.cache
    ensures Good(g, platform, Entered(w, target))
  {
    forall t | t in w.cache ensures BoundOk(g, platform, Entered(w, target), t) {
      assert BoundOk(g, platform, w, t);
    }
  }

  lemma NoRepeatsAppend(s: seq<string>, x: string)
    requires NoRepeats(s) && x !in s
    ensures NoRepeats(s + [x])
  {
  }

  lemma FinishExtends(
      g: Graph, name: string, before: Walk, inside: Walk, target: string, child: Agent, left: set<string>)
    requires Closed(g) && name in g && target in Targets(g, name) && target !in before.active && target !in before.cache
    requires Extends(g, target, Entered(before, target), inside)
    ensures Extends(g, name, before, Finished(inside, target, child, left))
  {
    ReachTarget(g, name, target);
    var after := Finished(inside, target, child, left);
    forall t | t in after.cache && t !in before.cache ensures Reachable(g, name, t) && t !in before.active {
      if t != target {
        ReachThrough(g, name, target, t);
      }
    }
  }

  /** How far the loop over an agent's tools has come: `done` is behind it, as `newTools`. */
  ghost predicate Progress(
    g: Graph, platform: Platform, name: string, before: Walk, w: Walk, done: seq<Tool>, newTools: seq<BoundTool>)
  {
    && Good(g, platform, w) && Extends(g, name, before, w)
    && TargetsOf(done) <= w.cache.Keys + w.active
    && newTools == BindTools(done, w.cache, w.active)
    && (AllKept(newTools) ==> NewAreRaw(before, w))
  }

  lemma ToolAppended(g: Graph, before: Walk, w: Walk, done: seq<Tool>, newTools: seq<BoundTool>, tool: Tool)
    requires TargetsOf(done) <= w.cache.Keys + w.active && newTools == BindTools(done, w.cache, w.active)
    requires tool.Mount? ==> tool.target in w.cache || tool.target in w.active
    ensures TargetsOf(done + [tool]) <= w.cache.Keys + w.active
    ensures newTools + [BindTool(tool, w.cache, w.active)] == BindTools(done + [tool], w.cache, w.active)
    ensures !AllKept(newTools) || BindTool(tool, w.cache, w.active).Swapped?
            <==> !AllKept(newTools + [BindTool(tool, w.cache, w.active)])
  {
    forall t | t in TargetsOf(done + [tool]) ensures t in w.cache || t in w.active {
      var i :| 0 <= i < |done + [tool]| && (done + [tool])[i].Mount? && (done + [tool])[i].target == t;
      if i < |done| {
        assert done[i].target in TargetsOf(done);
      }
    }
    var more := newTools + [BindTool(tool, w.cache, w.active)];
    assert more == BindTools(done + [tool], w.cache, w.active);
    assert more[|newTools|] == BindTool(tool, w.cache, w.active);
    assert forall i :: 0 <= i < |newTools| ==> more[i] == newTools[i];
  }

  lemma ProgressTool(
      g: Graph, platform: Platform, name: string, before: Walk, w: Walk, done: seq<Tool>, newTools: seq<BoundTool>,
      tool: Tool)
    requires Progress(g, platform, name, before, w, done, newTools)
    requires tool.Mount? ==> tool.target in w.cache || tool.target in w.active
    ensures Progress(g, platform, name, before, w, done + [tool], newTools + [BindTool(tool, w.cache, w.active)])
    ensures !AllKept(newTools) || BindTool(tool, w.cache, w.active).Swapped?
            <==> !AllKept(newTools + [BindTool(tool, w.cache, w.active)])
  {
    ToolAppended(g, before, w, done, newTools, tool);
  }

  lemma ToolsStable(tools: seq<Tool>, before: Walk, after: Walk)
    requires TargetsOf(tools) <= before.cache.Keys + before.active
    requires after.active == before.active && after.active !! after.cache.Keys
    requires forall t :: t in before.cache ==> t in after.cache && after.cache[t] == before.cache[t]
    ensures BindTools(tools, after.cache, after.active) == BindTools(tools, before.cache, before.active)
  {
    forall i | 0 <= i < |tools|
      ensures BindTool(tools[i], after.cache, after.active) == BindTool(tools[i], before.cache, before.active)
    {
      if tools[i].Mount? {
        assert tools[i].target in TargetsOf(tools);
      }
    }
  }

  lemma ExtendsTrans(g: Graph, name: string, a: Walk, b: Walk, c: Walk)
    requires Extends(g, name, a, b) && Extends(g, name, b, c)
    ensures Extends(g, name, a, c)
  {
  }

  lemma ProgressBind(
      g: Graph, platform: Platform, name: string, before: Walk, was: Walk, w: Walk, done: seq<Tool>,
      newTools: seq<BoundTool>, tool: Tool)
    requires Progress(g, platform, name, before, was, done, newTools)
    requires Good(g, platform, w) && Extends(g, name, was, w)
    requires tool.Mount? && tool.target in w.cache
    requires w.cache[tool.target] == Raw(tool.target) ==> NewAreRaw(was, w)
    ensures Progress(g, platform, name, before, w, done + [tool], newTools + [BindTool(tool, w.cache, w.active)])
    ensures !AllKept(newTools) || BindTool(tool, w.cache, w.active).Swapped?
            <==> !AllKept(newTools + [BindTool(tool, w.cache, w.active)])
  {
    ToolsStable(done, was, w);
    ExtendsTrans(g, name, before, was, w);
    ToolAppended(g, before, w, done, newTools, tool);
  }

  method BindSubagents(g: Graph, platform: Platform, st: BindState, name: string) returns (r: Result<Agent, string>)
    requires Closed(g) && name in g
    requires Good(g, platform, st.View()) && Above(g, st.active, name)
    modifies st
    ensures st.active == old(st.active) && NoRepeats(st.fetched)
    ensures r.Failure? ==> FailsUnder(g, platform, name, r.error)
    ensures r.Success? ==> Good(g, platform, st.View()) && Extends(g, name, old(st.View()), st.View())
    ensures r.Success? ==> Targets(g, name) <= st.boundCache.Keys + st.active
    ensures r.Success? ==> r.value == Assemble(g, name, st.boundCache, st.active)
    ensures r.Success? && r.value == Raw(name) ==> NewAreRaw(old(st.View()), st.View())
    decreases g.Keys - st.active, 1
  {
    ghost var before := st.View();
    var tools := g[name];
    var changed := false;
    var newTools: seq<BoundTool> := [];
    for i := 0 to |tools|
      invariant Progress(g, platform, name, before, st.View(), tools[..i], newTools)
      invariant changed <==> !AllKept(newTools)
    {
      var tool := tools[i];
      assert tools[..i + 1] == tools[..i] + [tool];
      if tool.Plain? || (tool.target !in st.boundCache && tool.target in st.active) {
        ProgressTool(g, platform, name, before, st.View(), tools[..i], newTools, tool);
        newTools := newTools + [Kept(tool)];
        continue;
      }
      var target := tool.target;
      assert target in Targets(g, name);
      var child: Agent;
      if target in st.boundCache {
        child := st.boundCache[target];
        ProgressTool(g, platform, name, before, st.View(), tools[..i], newTools, tool);
      } else {
        ghost var was := st.View();
        var bound := BindTarget(g, platform, st, name, target);
        if bound.Failure? {
          return bound;
        }
        child := bound.value;
        ProgressBind(g, platform, name, before, was, st.View(), tools[..i], newTools, tool);
      }
      newTools := newTools + [if child != Raw(target) then Swapped(target, child) else Kept(tool)];
      changed := changed || child != Raw(target);
    }
    assert tools[..|tools|] == tools;
    return Success(if changed then Rebuilt(name, newTools) else Raw(name));
  }

  // ---- the whole tree ----

  /** Every target under the root is bound exactly once, nothing else is, and `r` is put together from them. */
  ghost predicate Complete(g: Graph, platform: Platform, root: string, r: Agent, w: Walk)
    requires root in g
  {
    && Good(g, platform, w) && w.active == {}
    && (forall t :: t in w.cache <==> Reachable(g, root, t))
    && r == Assemble(g, root, w.cache, {})
    && (r == Raw(root) ==> forall t :: t in w.cache ==> w.cache[t] == Raw(t))
  }

  lemma CacheIsComplete(g: Graph, platform: Platform, root: string, w: Walk, t: string)
    requires root in g && Good(g, platform, w) && w.active == {}
    requires Targets(g, root) <= w.cache.Keys && Reachable(g, root, t)
    ensures t in w.cache
  {
    var p :| PathFrom(g, p, root, t);
    forall b | b in w.cache.Keys ensures Targets(g, b) <= w.cache.Keys {
      assert BoundOk(g, platform, w, b);
    }
    ClosedSetHoldsPath(g, w.cache.Keys, p, |p| - 1);
  }

  /**
    Binding a whole tree, cyclic mounts included: it ends, fetches no name twice, fails exactly when
    some target under the root fails, and otherwise binds every target under the root.
   */
  method BindTree(g: Graph, platform: Platform, root: string) returns (r: Result<Agent, string>, ghost w: Walk)
    requires Closed(g) && root in g
    ensures NoRepeats(w.fetched) && w.active == {}
    ensures r.Success? <==> forall t :: Reachable(g, root, t) ==> !platform(t).Failed?
    ensures r.Success? ==> Complete(g, platform, root, r.value, w)
    ensures r.Success? ==> forall t :: Reachable(g, root, t) ==> t in w.cache && GovernedAs(g, platform, w, t)
    ensures r.Success? ==> BuiltFrom(g, w.cache, {}, root, r.value)
  {
    var st := new BindState();
    r := BindSubagents(g, platform, st, root);
    w := st.View();
    if r.Success? {
      forall t | Reachable(g, root, t) ensures t in w.cache && !platform(t).Failed? {
        CacheIsComplete(g, platform, root, w, t);
      }
      TreeIsGoverned(g, platform, root, r.value, w);
    }
  }

  // ---- what a bound agent is ----

  /** `bound` is `tool` as built, or mounts the agent that is cached for its target if that is not as built. */
  ghost predicate MountedFrom(tool: Tool, bound: BoundTool, cache: map<string, Agent>, back: set<string>) {
    match tool
    case Plain(_) => bound == Kept(tool)
    case Mount(target) =>
      if target in back then bound == Kept(tool)
      else
        && target in cache
        && match bound
           case Kept(t) => t == tool && cache[target] == Raw(target)
           case Swapped(t, child) => t == target && child == cache[target] && child != Raw(target)
  }

  /** `agent` is `name` with what is cached in place of every mount outside `back`; as built if that changes nothing. */
  ghost predicate BuiltFrom(g: Graph, cache: map<string, Agent>, back: set<string>, name: string, agent: Agent)
    requires name in g
  {
    match agent
    case Raw(n) =>
      n == name && forall i :: 0 <= i < |g[name]| ==> MountedFrom(g[name][i], Kept(g[name][i]), cache, back)
    case Rebuilt(n, tools) =>
      && n == name && |tools| == |g[name]|
      && (forall i :: 0 <= i < |tools| ==> MountedFrom(g[name][i], tools[i], cache, back))
      && exists i :: 0 <= i < |tools| && tools[i].Swapped?
    case Enforced(_, _) => false
  }

  /** Under the platform's own policy for it, or, where the platform has none, ungoverned. */
  ghost predicate GovernedAs(g: Graph, platform: Platform, w: Walk, t: string)
    requires t in w.cache
  {
    && t in g && t in w.back
    && (forall s :: s in w.back[t] ==> OnCycle(g, t, s))
    && match platform(t)
       case Policy(p) =>
         w.cache[t].Enforced? && w.cache[t].policy == p && BuiltFrom(g, w.cache, w.back[t], t, w.cache[t].inner)
       case NotFound => BuiltFrom(g, w.cache, w.back[t], t, w.cache[t])
       case Failed(_) => false
  }

  lemma AssembledIsBuilt(g: Graph, cache: map<string, Agent>, back: set<string>, name: string)
    requires name in g && Targets(g, name) - back <= cache.Keys
    ensures BuiltFrom(g, cache, back, name, Assemble(g, name, cache, back))
  {
    var tools := BindTools(g[name], cache, back);
    forall i | 0 <= i < |g[name]| ensures MountedFrom(g[name][i], tools[i], cache, back) {
      if g[name][i].Mount? {
        assert g[name][i].target in Targets(g, name);
      }
    }
  }

  /** Every bound target is governed by its own policy and mounts what is bound for its own mounts. */
  lemma TreeIsGoverned(g: Graph, platform: Platform, root: string, r: Agent, w: Walk)
    requires Closed(g) && root in g && Complete(g, platform, root, r, w)
    ensures forall t :: t in w.cache ==> GovernedAs(g, platform, w, t)
    ensures BuiltFrom(g, w.cache, {}, root, r)
  {
    forall t | t in w.cache ensures GovernedAs(g, platform, w, t) {
      assert BoundOk(g, platform, w, t);
      AssembledIsBuilt(g, w.cache, w.back[t], t);
    }
    forall t | t in Targets(g, root) ensures t in w.cache {
      ReachTarget(g, root, t);
    }
    AssembledIsBuilt(g, w.cache, {}, root);
  }

  /** Where every target is unknown, every child stays as it was built, cycles or not. */
  lemma {:induction false} UnknownStaysRaw(g: Graph, platform: Platform, w: Walk, t: string)
    requires Good(g, platform, w) && t in w.cache && forall s :: s in w.cache ==> platform(s).NotFound?
    ensures w.cache[t] == Raw(t)
    decreases w.cache[t]
  {
    assert BoundOk(g, platform, w, t);
    var tools := BindTools(g[t], w.cache, w.back[t]);
    if !AllKept(tools) {
      var i :| 0 <= i < |tools| && !tools[i].Kept?;
      assert tools[i].child < w.cache[t];
      UnknownStaysRaw(g, platform, w, tools[i].target);
    }
  }

  /** The tree comes back unchanged exactly when the platform knows none of its targets. */
  lemma UnchangedIffAllUnknown(g: Graph, platform: Platform, root: string, r: Agent, w: Walk)
    requires root in g && Complete(g, platform, root, r, w)
    ensures r == Raw(root) <==> forall t :: Reachable(g, root, t) ==> platform(t).NotFound?
  {
    if forall t :: Reachable(g, root, t) ==> platform(t).NotFound? {
      forall t | t in w.cache ensures w.cache[t] == Raw(t) {
        UnknownStaysRaw(g, platform, w, t);
      }
    }
    if r == Raw(root) {
      forall t | Reachable(g, root, t) ensures platform(t).NotFound? {
        assert BoundOk(g, platform, w, t);
      }
    }
  }

  // ---- acyclic mounts: the plain recursion ----

  ghost predicate Acyclic(g: Graph) {
    forall n :: n in g ==> !Reachable(g, n, n)
  }

  ghost function Below(g: Graph, n: string): set<string> {
    set m | m in g && Reachable(g, n, m)
  }

  lemma TargetIsBelow(g: Graph, n: string, t: string)
    requires Closed(g) && Acyclic(g) && n in g && t in Targets(g, n)
    ensures Below(g, t) < Below(g, n)
  {
    ReachTarget(g, n, t);
    forall m | m in Below(g, t) ensures m in Below(g, n) {
      ReachThrough(g, n, t, m);
    }
    assert t in Below(g, n) && t !in Below(g, t);
  }

  /** The plain, unmemoised recursion: bind a child's own mounts, then the child. */
  ghost function PlainAgent(g: Graph, platform: Platform, name: string): Result<Agent, string>
    requires Closed(g) && Acyclic(g) && name in g
    decreases Below(g, name), 1, 0
  {
    match PlainTools(g, platform, name, g[name])
    case Failure(e) => Failure(e)
    case Success(tools) => Success(if AllKept(tools) then Raw(name) else Rebuilt(name, tools))
  }

  type ToolsResult = Result<seq<BoundTool>, string>

  ghost function PlainTools(g: Graph, platform: Platform, name: string, tools: seq<Tool>): (r: ToolsResult)
    requires Closed(g) && Acyclic(g) && name in g && TargetsOf(tools) <= Targets(g, name)
    ensures r.Success? ==> |r.value| == |tools|
    decreases Below(g, name), 0, |tools|
  {
    if tools == [] then Success([])
    else
      var n := |tools| - 1;
      assert tools[..n] + [tools[n]] == tools;
      assert forall i :: 0 <= i < n ==> tools[..n][i] == tools[i];
      match PlainTools(g, platform, name, tools[..n])
      case Failure(e) => Failure(e)
      case Success(bound) =>
        if tools[n].Plain? then Success(bound + [Kept(tools[n])])
        else
          var t := tools[n].target;
          assert t in TargetsOf(tools);
          TargetIsBelow(g, name, t);
          match PlainTarget(g, platform, t)
          case Failure(e) => Failure(e)
          case Success(child) => Success(bound + [if child != Raw(t) then Swapped(t, child) else Kept(tools[n])])
  }

  ghost function PlainTarget(g: Graph, platform: Platform, t: string): Result<Agent, string>
    requires Closed(g) && Acyclic(g) && t in g
    decreases Below(g, t), 2, 0
  {
    match PlainAgent(g, platform, t)
    case Failure(e) => Failure(e)
    case Success(child) =>
      match platform(t)
      case Policy(p) => Success(Enforced(p, child))
      case NotFound => Success(child)
      case Failed(e) => Failure(e)
  }

  /** Without cycles no mount is left as built. */
  lemma NothingLeftBehind(g: Graph, platform: Platform, w: Walk, t: string)
    requires Closed(g) && Acyclic(g) && Good(g, platform, w) && t in w.cache
    ensures w.back[t] == {} && Targets(g, t) <= w.cache.Keys
  {
    assert BoundOk(g, platform, w, t);
    forall s | s in w.back[t] ensures false {
      ReachTarget(g, t, s);
      if s != t {
        ReachThrough(g, t, s, t);
      }
    }
  }

  lemma {:induction false} CachedIsPlain(g: Graph, platform: Platform, w: Walk, t: string)
    requires Closed(g) && Acyclic(g) && Good(g, platform, w) && t in w.cache
    ensures t in g && PlainTarget(g, platform, t) == Success(w.cache[t])
    decreases Below(g, t), 2, 0
  {
    assert BoundOk(g, platform, w, t);
    NothingLeftBehind(g, platform, w, t);
    AssembledIsPlain(g, platform, w, t);
  }

  lemma {:induction false} AssembledIsPlain(g: Graph, platform: Platform, w: Walk, name: string)
    requires Closed(g) && Acyclic(g) && Good(g, platform, w) && name in g && Targets(g, name) <= w.cache.Keys
    ensures PlainAgent(g, platform, name) == Success(Assemble(g, name, w.cache, {}))
    decreases Below(g, name), 1, 0
  {
    ToolsArePlain(g, platform, w, name, g[name]);
  }

  lemma {:induction false} ToolsArePlain(g: Graph, platform: Platform, w: Walk, name: string, tools: seq<Tool>)
    requires Closed(g) && Acyclic(g) && Good(g, platform, w) && name in g
    requires TargetsOf(tools) <= Targets(g, name) && TargetsOf(tools) <= w.cache.Keys
    ensures PlainTools(g, platform, name, tools) == Success(BindTools(tools, w.cache, {}))
    decreases Below(g, name), 0, |tools|
  {
    if tools == [] {
    } else {
      var n := |tools| - 1;
      assert tools[..n] + [tools[n]] == tools;
      assert forall i :: 0 <= i < n ==> tools[..n][i] == tools[i];
      ToolsArePlain(g, platform, w, name, tools[..n]);
      if tools[n].Mount? {
        assert tools[n].target in TargetsOf(tools);
        TargetIsBelow(g, name, tools[n].target);
        CachedIsPlain(g, platform, w, tools[n].target);
      }
      assert BindTools(tools, w.cache, {}) == BindTools(tools[..n], w.cache, {}) + [BindTool(tools[n], w.cache, {})];
    }
  }

  /** Without cycles the memoised walk gives the plain recursion's tree. */
  lemma MemoisedIsPlain(g: Graph, platform: Platform, root: string, r: Agent, w: Walk)
    requires Closed(g) && Acyclic(g) && root in g && Complete(g, platform, root, r, w)
    ensures PlainAgent(g, platform, root) == Success(r)
  {
    forall t | t in Targets(g, root) ensures t in w.cache {
      ReachTarget(g, root, t);
    }
    AssembledIsPlain(g, platform, w, root);
  }

  /** The plain recursion too succeeds only when nothing under its root fails. */
  lemma {:induction false} PlainReachesAll(g: Graph, platform: Platform, name: string, p: seq<string>)
    requires Closed(g) && Acyclic(g) && name in g && PlainAgent(g, platform, name).Success?
    requires |p| >= 2 && IsPath(g, p) && p[0] == name
    ensures !platform(p[|p| - 1]).Failed?
    decreases |p|
  {
    var t := p[1];
    PlainToolsReach(g, platform, name, g[name], t);
    if |p| > 2 {
      PlainReachesAll(g, platform, t, p[1..]);
    }
  }

  lemma {:induction false} PlainToolsReach(g: Graph, platform: Platform, name: string, tools: seq<Tool>, t: string)
    requires Closed(g) && Acyclic(g) && name in g && TargetsOf(tools) <= Targets(g, name)
    requires PlainTools(g, platform, name, tools).Success? && t in TargetsOf(tools)
    ensures t in g && PlainTarget(g, platform, t).Success?
    decreases |tools|
  {
    var n := |tools| - 1;
    assert tools[..n] + [tools[n]] == tools;
    assert forall i :: 0 <= i < n ==> tools[..n][i] == tools[i];
    if !(tools[n].Mount? && tools[n].target == t) {
      PlainToolsReach(g, platform, name, tools[..n], t);
    } else {
      assert t in Targets(g, name);
    }
  }

  /** So the two succeed together, on every acyclic tree. */
  lemma PlainSucceedsTogether(g: Graph, platform: Platform, root: string)
    requires Closed(g) && Acyclic(g) && root in g && PlainAgent(g, platform, root).Success?
    ensures forall t :: Reachable(g, root, t) ==> !platform(t).Failed?
  {
    forall t | Reachable(g, root, t) ensures !platform(t).Failed? {
      var p :| PathFrom(g, p, root, t);
      PlainReachesAll(g, platform, root, p);
    }
  }
}
