/**
 Self-modification and its undo: a proposal is turned into an inverse from what
 it is about to overwrite, applied, and possibly rolled back later. Policy and
 plugin files are modelled as the tables they hold.
 */
module Evolution {
  import opened Words
  import opened Search

  datatype Rule = Allow | Ask | Workspace

  datatype Proposal =
    | UpdateSoul(content: string)
    | UpdateRule(pattern: string, rule: Rule)
    | Register(name: string, command: string, env: map<string, string>)
    | Unregister(name: string)
    | HotReload
    | RequestHardware

  datatype Plugin = Plugin(id: string, cmd: string, env: map<string, string>)

  /** The files evolution edits: soul texts by target, the rules table, the plugin tables in file order. */
  datatype Config = Config(souls: map<string, string>, rules: map<string, Rule>, plugins: seq<Plugin>)

  datatype Prior = Prior(soul: Option<string>, rule: Option<Rule>, cmd: Option<string>)

  /** What is kept for a rollback: the inverse, and the soul the original was aimed at. */
  datatype Record = Record(undo: Option<Proposal>, target: string)

  // ---- The edits ----

  function Named(name: string): (p: Plugin -> bool) { (p: Plugin) => p.id == name }

  /** Index of the first plugin called `name`, or the length. */
  function FirstNamed(ps: seq<Plugin>, name: string): (k: nat)
    ensures k <= |ps|
    ensures k < |ps| ==> ps[k].id == name
    ensures forall i :: 0 <= i < k ==> ps[i].id != name
  {
    var k := First(ps, Named(name));
    assert forall i :: 0 <= i < k ==> !Named(name)(ps[i]);
    k
  }

  /** A new plugin table goes to the end, but only of a list that is there at all. */
  function Added(ps: seq<Plugin>, p: Plugin): (r: seq<Plugin>) {
    if ps == [] then [] else ps + [p]
  }

  function Removed(ps: seq<Plugin>, name: string): (r: seq<Plugin>) {
    Without(ps, FirstNamed(ps, name))
  }

  function Without(ps: seq<Plugin>, k: nat): (r: seq<Plugin>) {
    if k < |ps| then ps[..k] + ps[k + 1..] else ps
  }

  method FindPlugin(ps: seq<Plugin>, name: string) returns (k: nat)
    ensures k == FirstNamed(ps, name)
  {
    k := 0;
    while k < |ps| && ps[k].id != name
      invariant k <= |ps| && forall i :: 0 <= i < k ==> ps[i].id != name
    {
      k := k + 1;
    }
    FirstNamedIs(ps, name, k);
  }

  method PluginCommand(ps: seq<Plugin>, name: string) returns (cmd: Option<string>)
    ensures cmd.Some? <==> exists i :: 0 <= i < |ps| && ps[i].id == name
    ensures cmd == CommandOf(ps, name)
    ensures cmd.Some? ==> exists i :: 0 <= i < |ps| && ps[i].id == name && ps[i].cmd == cmd.value
                                 && forall j :: 0 <= j < i ==> ps[j].id != name
  {
    var k := FindPlugin(ps, name);
    return if k < |ps| then Some(ps[k].cmd) else None;
  }

  function CommandOf(ps: seq<Plugin>, name: string): (r: Option<string>) {
    var k := FirstNamed(ps, name);
    if k < |ps| then Some(ps[k].cmd) else None
  }

  function Apply(c: Config, target: string, p: Proposal): (r: Config) {
    match p
    case UpdateSoul(content) => c.(souls := c.souls[target := content])
    case UpdateRule(pattern, rule) => c.(rules := c.rules[pattern := rule])
    case Register(name, command, env) => c.(plugins := Added(c.plugins, Plugin(name, command, env)))
    case Unregister(name) => c.(plugins := Removed(c.plugins, name))
    case HotReload => c
    case RequestHardware => c
  }

  /** `compute_undo`: read what the proposal will overwrite. */
  function Capture(c: Config, target: string, p: Proposal): (r: Prior) {
    match p
    case UpdateSoul(_) => Prior(Lookup(c.souls, target), None, None)
    case UpdateRule(pattern, _) => Prior(None, Lookup(c.rules, pattern), None)
    case Unregister(name) => Prior(None, None, CommandOf(c.plugins, name))
    case _ => Prior(None, None, None)
  }

  function Lookup<V>(m: map<string, V>, k: string): (r: Option<V>) {
    if k in m then Some(m[k]) else None
  }

  function Invert(p: Proposal, prior: Prior): (r: Option<Proposal>) {
    match p
    case UpdateSoul(_) => if prior.soul.Some? then Some(UpdateSoul(prior.soul.value)) else None
    case UpdateRule(pattern, _) => if prior.rule.Some? then Some(UpdateRule(pattern, prior.rule.value)) else None
    case Register(name, _, _) => Some(Unregister(name))
    case Unregister(name) => if prior.cmd.Some? then Some(Register(name, prior.cmd.value, map[])) else None
    case HotReload => None
    case RequestHardware => None
  }

  function Snapshot(c: Config, target: string, p: Proposal): (r: Record) {
    Record(Invert(p, Capture(c, target, p)), target)
  }

  /** One evolution: a soul rewrite without a snapshot is refused, everything else is applied. */
  function Evolve(c: Config, target: string, p: Proposal): (r: Config) {
    if p.UpdateSoul? && Snapshot(c, target, p).undo.None? then c else Apply(c, target, p)
  }

  function Rollback(c: Config, r: Record): (result: Config) {
    if r.undo.Some? then Apply(c, r.target, r.undo.value) else c
  }

  // ---- The plain picture: three maps ----

  datatype View = View(souls: map<string, string>, rules: map<string, Rule>, commands: map<string, string>)

  predicate Distinct(ps: seq<Plugin>) {
    forall i, j :: 0 <= i < j < |ps| ==> ps[i].id != ps[j].id
  }

  function Commands(ps: seq<Plugin>): (r: map<string, string>) {
    map id | id in (set i | 0 <= i < |ps| :: ps[i].id) :: CommandOf(ps, id).value
  }

  function Seen(c: Config): (r: View) { View(c.souls, c.rules, Commands(c.plugins)) }

  /** What each proposal does to the picture. */
  function ApplyView(v: View, target: string, p: Proposal): (r: View) {
    match p
    case UpdateSoul(content) => v.(souls := v.souls[target := content])
    case UpdateRule(pattern, rule) => v.(rules := v.rules[pattern := rule])
    case Register(name, command, _) =>
      if v.commands == map[] || name in v.commands then v else v.(commands := v.commands[name := command])
    case Unregister(name) => v.(commands := v.commands - {name})
    case HotReload => v
    case RequestHardware => v
  }

  lemma Answers(ps: seq<Plugin>, id: string)
    ensures Lookup(Commands(ps), id) == CommandOf(ps, id)
  {
    var k := FirstNamed(ps, id);
    assert k < |ps| ==> ps[k].id == id;
  }

  /** A map with the same answers is the picture of the list. */
  lemma SameAnswers(ps: seq<Plugin>, m: map<string, string>)
    requires forall id :: Lookup(m, id) == CommandOf(ps, id)
    ensures Commands(ps) == m
  {
    forall id ensures Lookup(m, id) == Lookup(Commands(ps), id) { Answers(ps, id); }
    SameLookups(m, Commands(ps));
  }

  lemma SameLookups<V>(m: map<string, V>, n: map<string, V>)
    requires forall id :: Lookup(m, id) == Lookup(n, id)
    ensures m == n
  {
    forall id ensures id in m <==> id in n { assert Lookup(m, id) == Lookup(n, id); }
    forall id | id in m ensures m[id] == n[id] { assert Lookup(m, id) == Lookup(n, id); }
  }

  lemma EmptyListShows(ps: seq<Plugin>)
    ensures ps == [] <==> Commands(ps) == map[]
  {
    if ps != [] { Answers(ps, ps[0].id); }
  }

  lemma FirstNamedIs(ps: seq<Plugin>, name: string, k: nat)
    requires k <= |ps| && (k < |ps| ==> ps[k].id == name)
    requires forall i :: 0 <= i < k ==> ps[i].id != name
    ensures FirstNamed(ps, name) == k
  {
    FirstIs(ps, Named(name), k);
  }

  lemma FirstAfterAdding(ps: seq<Plugin>, p: Plugin, id: string)
    ensures FirstNamed(ps + [p], id)
         == if FirstNamed(ps, id) < |ps| then FirstNamed(ps, id) else if p.id == id then |ps| else |ps| + 1
  {
    var k := FirstNamed(ps, id);
    FirstNamedIs(ps + [p], id, if k < |ps| then k else if p.id == id then |ps| else |ps| + 1);
  }

  lemma CommandAfterAdding(ps: seq<Plugin>, p: Plugin, id: string)
    ensures CommandOf(ps + [p], id) == if CommandOf(ps, id).Some? then CommandOf(ps, id)
                                       else if id == p.id then Some(p.cmd) else None
  {
    FirstAfterAdding(ps, p, id);
  }

  lemma AddedCommands(ps: seq<Plugin>, p: Plugin)
    ensures Commands(ps + [p])
         == if CommandOf(ps, p.id).Some? then Commands(ps) else Commands(ps)[p.id := p.cmd]
  {
    var m := if CommandOf(ps, p.id).Some? then Commands(ps) else Commands(ps)[p.id := p.cmd];
    forall id ensures Lookup(m, id) == CommandOf(ps + [p], id) {
      Answers(ps, id);
      CommandAfterAdding(ps, p, id);
    }
    SameAnswers(ps + [p], m);
  }

  lemma FirstAfterRemoving(ps: seq<Plugin>, name: string, id: string)
    requires Distinct(ps) && FirstNamed(ps, name) < |ps|
    ensures var k, n, qs := FirstNamed(ps, id), FirstNamed(ps, name), Removed(ps, name);
            FirstNamed(qs, id) == if id == name then |qs| else if k < n then k else k - 1
  {
    var k, n, qs := FirstNamed(ps, id), FirstNamed(ps, name), Removed(ps, name);
    var l := if id == name then |qs| else if k < n then k else k - 1;
    forall i | 0 <= i < |qs| ensures qs[i] == ps[if i < n then i else i + 1] { }
    FirstNamedIs(qs, id, l);
  }

  lemma RemovedCommands(ps: seq<Plugin>, name: string)
    requires Distinct(ps)
    ensures Commands(Removed(ps, name)) == Commands(ps) - {name}
  {
    var m := Commands(ps) - {name};
    forall id ensures Lookup(m, id) == CommandOf(Removed(ps, name), id) {
      Answers(ps, id);
      CommandAfterRemoving(ps, name, id);
    }
    SameAnswers(Removed(ps, name), m);
  }

  lemma CommandAfterRemoving(ps: seq<Plugin>, name: string, id: string)
    requires Distinct(ps)
    ensures CommandOf(Removed(ps, name), id) == if id == name then None else CommandOf(ps, id)
  {
    if FirstNamed(ps, name) < |ps| {
      FirstAfterRemoving(ps, name, id);
    }
  }

  /** Applying a proposal to the files is applying it to the picture. */
  lemma ApplyRefinesView(c: Config, target: string, p: Proposal)
    requires Distinct(c.plugins)
    ensures Seen(Apply(c, target, p)) == ApplyView(Seen(c), target, p)
    ensures !(p.Register? && p.name in Seen(c).commands) ==> Distinct(Apply(c, target, p).plugins)
  {
    if p.Register? {
      EmptyListShows(c.plugins);
      if c.plugins != [] {
        Answers(c.plugins, p.name);
        AddedCommands(c.plugins, Plugin(p.name, p.command, p.env));
      }
    } else if p.Unregister? {
      RemovedCommands(c.plugins, p.name);
    }
  }

  /**
   What one evolution leaves, key by key: an existing soul reads as proposed and no
   soul is made up; the rule is set; a new command joins a list that is there, a
   removed one is gone; everything else reads as before.
   */
  lemma EvolvedReads(c: Config, target: string, p: Proposal, key: string)
    requires Distinct(c.plugins)
    ensures var v := Evolve(c, target, p);
            && (Lookup(v.souls, key) == if p.UpdateSoul? && key == target && target in c.souls then Some(p.content)
                                        else Lookup(c.souls, key))
            && (Lookup(v.rules, key) == if p.UpdateRule? && key == p.pattern then Some(p.rule)
                                        else Lookup(c.rules, key))
            && (CommandOf(v.plugins, key) ==
                if p.Register? && key == p.name && c.plugins != [] && CommandOf(c.plugins, key) == None
                then Some(p.command)
                else if p.Unregister? && key == p.name then None
                else CommandOf(c.plugins, key))
            && (p.Register? && c.plugins != [] ==> v.plugins[|v.plugins| - 1..] == [Plugin(p.name, p.command, p.env)])
  {
    if p.Register? && c.plugins != [] {
      CommandAfterAdding(c.plugins, Plugin(p.name, p.command, p.env), key);
    } else if p.Unregister? {
      CommandAfterRemoving(c.plugins, p.name, key);
    }
  }

  // ---- One step and its undo ----

  /** What a caller can look up beforehand to know that the undo will restore the picture. */
  predicate Restorable(c: Config, p: Proposal) {
    match p
    case UpdateRule(pattern, _) => pattern in c.rules
    case Register(name, command, _) =>
      c.plugins == [] || CommandOf(c.plugins, name) in {None, Some(command)}
    case Unregister(name) => !(|c.plugins| == 1 && c.plugins[0].id == name)
    case _ => true
  }

  lemma RemovalPassesOver(ps: seq<Plugin>, p: Plugin)
    requires FirstNamed(ps, p.id) < |ps|
    ensures Removed(ps + [p], p.id) == Removed(ps, p.id) + [p]
  {
    FirstAfterAdding(ps, p, p.id);
  }

  /** With a name on the list already, registering it and undoing that leaves the second entry. */
  lemma RemoveFromDoubled(ps: seq<Plugin>, p: Plugin)
    requires Distinct(ps) && FirstNamed(ps, p.id) < |ps|
    ensures Commands(Removed(ps + [p], p.id)) == Commands(ps)[p.id := p.cmd]
  {
    RemovalPassesOver(ps, p);
    RemovedCommands(ps, p.id);
    CommandAfterRemoving(ps, p.id, p.id);
    AddedCommands(Removed(ps, p.id), p);
  }

  /** Unregistering a plugin and registering its command again. */
  lemma AddBack(ps: seq<Plugin>, name: string, env: map<string, string>)
    requires Distinct(ps) && FirstNamed(ps, name) < |ps|
    ensures var p := Plugin(name, CommandOf(ps, name).value, env);
            Commands(Added(Removed(ps, name), p)) == Commands(ps) <==> |ps| > 1
  {
    var cmd := CommandOf(ps, name).value;
    var qs := Removed(ps, name);
    EmptyListShows(ps);
    if |ps| > 1 {
      assert qs != [];
      CommandAfterRemoving(ps, name, name);
      RemovedCommands(ps, name);
      AddedCommands(qs, Plugin(name, cmd, env));
      Answers(ps, name);
    } else {
      assert qs == [];
      EmptyListShows(qs);
    }
  }

  lemma RemoveJustAdded(ps: seq<Plugin>, p: Plugin)
    requires FirstNamed(ps, p.id) == |ps|
    ensures Removed(ps + [p], p.id) == ps
  {
    FirstAfterAdding(ps, p, p.id);
  }

  lemma UndoneRegister(c: Config, target: string, p: Proposal)
    requires Distinct(c.plugins) && p.Register?
    ensures Seen(Rollback(Evolve(c, target, p), Snapshot(c, target, p))) == Seen(c)
       <==> Restorable(c, p)
  {
    var q := Plugin(p.name, p.command, p.env);
    var back := Rollback(Evolve(c, target, p), Snapshot(c, target, p));
    assert back == c.(plugins := Removed(Added(c.plugins, q), p.name));
    if c.plugins != [] {
      if FirstNamed(c.plugins, p.name) < |c.plugins| {
        RemoveFromDoubled(c.plugins, q);
        Answers(c.plugins, p.name);
      } else {
        RemoveJustAdded(c.plugins, q);
      }
    }
  }

  lemma UndoneUnregister(c: Config, target: string, p: Proposal)
    requires Distinct(c.plugins) && p.Unregister?
    ensures Seen(Rollback(Evolve(c, target, p), Snapshot(c, target, p))) == Seen(c)
       <==> Restorable(c, p)
  {
    var back := Rollback(Evolve(c, target, p), Snapshot(c, target, p));
    if FirstNamed(c.plugins, p.name) < |c.plugins| {
      var q := Plugin(p.name, CommandOf(c.plugins, p.name).value, map[]);
      assert back == c.(plugins := Added(Removed(c.plugins, p.name), q));
      AddBack(c.plugins, p.name, map[]);
    } else {
      assert back == c;
    }
  }

  /** Rolling back one evolution restores souls, rules and commands in exactly these cases. */
  lemma UndoRestoresExactly(c: Config, target: string, p: Proposal)
    requires Distinct(c.plugins)
    ensures Seen(Rollback(Evolve(c, target, p), Snapshot(c, target, p))) == Seen(c)
       <==> Restorable(c, p)
  {
    match p
    case Register(_, _, _) => UndoneRegister(c, target, p);
    case Unregister(_) => UndoneUnregister(c, target, p);
    case UpdateSoul(content) =>
      if target in c.souls {
        assert c.souls[target := content][target := c.souls[target]] == c.souls;
      }
    case UpdateRule(pattern, rule) =>
      if pattern in c.rules {
        assert c.rules[pattern := rule][pattern := c.rules[pattern]] == c.rules;
      } else {
        assert pattern in c.rules[pattern := rule];
      }
    case HotReload =>
    case RequestHardware =>
  }

  /** A brand-new rule stays: there is no proposal that takes a rule out again. */
  lemma NewRuleStays(c: Config, target: string, pattern: string, rule: Rule)
    requires pattern !in c.rules
    ensures Rollback(Evolve(c, target, UpdateRule(pattern, rule)), Snapshot(c, target, UpdateRule(pattern, rule))).rules
         == c.rules[pattern := rule]
  {
  }

  /**
   Beyond the picture: undoing the removal of a present plugin gives the files back
   exactly when it was last of several and carried no environment.
   */
  lemma UnregisterLosesOrderAndEnv(c: Config, target: string, name: string)
    requires Distinct(c.plugins)
    requires FirstNamed(c.plugins, name) < |c.plugins|
    ensures Rollback(Evolve(c, target, Unregister(name)), Snapshot(c, target, Unregister(name))) == c
       <==> |c.plugins| > 1 && c.plugins[|c.plugins| - 1].id == name && c.plugins[|c.plugins| - 1].env == map[]
  {
    var ps := c.plugins;
    var k := FirstNamed(ps, name);
    var qs := Removed(ps, name);
    var p := Plugin(name, ps[k].cmd, map[]);
    assert |qs| == |ps| - 1;
    var back := Rollback(Evolve(c, target, Unregister(name)), Snapshot(c, target, Unregister(name)));
    assert back.plugins == Added(qs, p);
    if |ps| > 1 {
      var last := |ps| - 1;
      assert (qs + [p])[last] == p;
      if k == last {
        assert forall i :: 0 <= i < last ==> (qs + [p])[i] == ps[i];
        if ps[last].env == map[] {
          assert ps[last] == p;
          assert qs + [p] == ps;
        }
      } else {
        assert ps[last].id != name;
      }
    }
  }

  // ---- A whole history and its undo ----

  datatype Change = Change(target: string, proposal: Proposal)

  /** A change whose undo can be trusted, whatever the other changes are. */
  predicate Clean(c: Config, ch: Change) {
    && Restorable(c, ch.proposal)
    && (ch.proposal.Register? && c.plugins != [] ==> CommandOf(c.plugins, ch.proposal.name).None?)
  }

  function EvolveAll(c: Config, hs: seq<Change>): (r: Config)
    decreases hs
  {
    if hs == [] then c else EvolveAll(Evolve(c, hs[0].target, hs[0].proposal), hs[1..])
  }

  predicate AllClean(c: Config, hs: seq<Change>)
    decreases hs
  {
    hs != [] ==> Clean(c, hs[0]) && AllClean(Evolve(c, hs[0].target, hs[0].proposal), hs[1..])
  }

  /** The records in the order they were taken. */
  function Records(c: Config, hs: seq<Change>): (r: seq<Record>)
    decreases hs
  {
    if hs == [] then [] else
      [Snapshot(c, hs[0].target, hs[0].proposal)] + Records(Evolve(c, hs[0].target, hs[0].proposal), hs[1..])
  }

  /** The latest record is rolled back first. */
  function RollbackAll(c: Config, rs: seq<Record>): (r: Config) {
    if rs == [] then c else Rollback(RollbackAll(c, rs[1..]), rs[0])
  }

  /** A clean change keeps the plugin names distinct. */
  lemma CleanKeepsDistinct(c: Config, ch: Change)
    requires Distinct(c.plugins) && Clean(c, ch)
    ensures Distinct(Evolve(c, ch.target, ch.proposal).plugins)
  {
    ApplyRefinesView(c, ch.target, ch.proposal);
    EmptyListShows(c.plugins);
  }

  predicate RegistersNewName(c: Config, r: Record) {
    r.undo.Some? && r.undo.value.Register? ==> r.undo.value.name !in Seen(c).commands
  }

  lemma UndoRegistersNewName(c: Config, target: string, p: Proposal)
    requires Distinct(c.plugins)
    ensures RegistersNewName(Evolve(c, target, p), Snapshot(c, target, p))
  {
    if p.Unregister? {
      RemovedCommands(c.plugins, p.name);
    }
  }

  /** A record works alike on files that look alike. */
  lemma LookalikesRollBackAlike(d: Config, e: Config, r: Record)
    requires Distinct(d.plugins) && Distinct(e.plugins) && Seen(d) == Seen(e)
    requires RegistersNewName(e, r)
    ensures Distinct(Rollback(d, r).plugins)
    ensures Seen(Rollback(d, r)) == Seen(Rollback(e, r))
  {
    if r.undo.Some? {
      ApplyRefinesView(e, r.target, r.undo.value);
      ApplyRefinesView(d, r.target, r.undo.value);
    }
  }

  /**
   A rollback run on files that only look like those right after the change still
   restores the picture from before it, and keeps the names distinct.
   */
  lemma RollbackFromLookalike(c: Config, ch: Change, d: Config)
    requires Distinct(c.plugins) && Clean(c, ch)
    requires Distinct(d.plugins) && Seen(d) == Seen(Evolve(c, ch.target, ch.proposal))
    ensures Distinct(Rollback(d, Snapshot(c, ch.target, ch.proposal)).plugins)
    ensures Seen(Rollback(d, Snapshot(c, ch.target, ch.proposal))) == Seen(c)
  {
    UndoRestoresExactly(c, ch.target, ch.proposal);
    CleanKeepsDistinct(c, ch);
    UndoRegistersNewName(c, ch.target, ch.proposal);
    LookalikesRollBackAlike(d, Evolve(c, ch.target, ch.proposal), Snapshot(c, ch.target, ch.proposal));
  }

  /** Undoing every change of a clean history, latest first, restores souls, rules and commands. */
  lemma {:induction false} RollbackRestores(c: Config, hs: seq<Change>, d: Config)
    requires Distinct(c.plugins) && AllClean(c, hs)
    requires Distinct(d.plugins) && Seen(d) == Seen(EvolveAll(c, hs))
    ensures Distinct(RollbackAll(d, Records(c, hs)).plugins)
    ensures Seen(RollbackAll(d, Records(c, hs))) == Seen(c)
    decreases hs
  {
    if hs != [] {
      var next := Evolve(c, hs[0].target, hs[0].proposal);
      CleanKeepsDistinct(c, hs[0]);
      RollbackRestores(next, hs[1..], d);
      assert Records(c, hs)[1..] == Records(next, hs[1..]);
      RollbackFromLookalike(c, hs[0], RollbackAll(d, Records(next, hs[1..])));
    }
  }

  lemma {:induction false} RollbackAllKeeps(c: Config, rs: seq<Record>)
    ensures c.rules.Keys <= RollbackAll(c, rs).rules.Keys
    ensures c.plugins == [] ==> RollbackAll(c, rs).plugins == []
    decreases rs
  {
    if rs != [] { RollbackAllKeeps(c, rs[1..]); }
  }

  lemma {:induction false} EvolveAllKeeps(c: Config, hs: seq<Change>)
    ensures c.rules.Keys <= EvolveAll(c, hs).rules.Keys
    ensures c.plugins == [] ==> EvolveAll(c, hs).plugins == []
    decreases hs
  {
    if hs != [] { EvolveAllKeeps(Evolve(c, hs[0].target, hs[0].proposal), hs[1..]); }
  }

  lemma {:induction false} EvolveAllSplits(c: Config, hs: seq<Change>, k: nat)
    requires k <= |hs|
    ensures EvolveAll(c, hs) == EvolveAll(EvolveAll(c, hs[..k]), hs[k..])
    decreases hs
  {
    if k > 0 {
      EvolveAllSplits(Evolve(c, hs[0].target, hs[0].proposal), hs[1..], k - 1);
      assert hs[..k][1..] == hs[1..][..k - 1];
    }
  }

  /**
   Neither limit can be worked around by other changes in the history: a history
   that is undone whole touched no rule that was not there, and at no point
   emptied a plugin list that had entries.
   */
  lemma RestoredOnlyIf(c: Config, hs: seq<Change>, k: nat)
    requires k < |hs|
    requires Seen(RollbackAll(EvolveAll(c, hs), Records(c, hs))) == Seen(c)
    ensures hs[k].proposal.UpdateRule? ==> hs[k].proposal.pattern in c.rules
    ensures c.plugins != [] ==> EvolveAll(c, hs[..k + 1]).plugins != []
  {
    var mid := EvolveAll(c, hs[..k]);
    var next := EvolveAll(c, hs[..k + 1]);
    assert hs[..k + 1][..k] == hs[..k] && hs[..k + 1][k..] == [hs[k]];
    EvolveAllSplits(c, hs[..k + 1], k);
    assert next == Evolve(mid, hs[k].target, hs[k].proposal);
    EvolveAllSplits(c, hs, k + 1);
    EvolveAllKeeps(next, hs[k + 1..]);
    RollbackAllKeeps(EvolveAll(c, hs), Records(c, hs));
    var back := RollbackAll(EvolveAll(c, hs), Records(c, hs));
    EmptyListShows(c.plugins);
    EmptyListShows(back.plugins);
  }

  /** No name on the list is registered again. */
  predicate NewNames(c: Config, hs: seq<Change>)
    decreases hs
  {
    hs != [] ==>
      && (hs[0].proposal.Register? && c.plugins != [] ==> CommandOf(c.plugins, hs[0].proposal.name).None?)
      && NewNames(Evolve(c, hs[0].target, hs[0].proposal), hs[1..])
  }

  /** Only rules that were there, and never a list emptied. */
  ghost predicate WithinLimits(c: Config, hs: seq<Change>) {
    forall k :: 0 <= k < |hs| ==> WithinLimitsAt(c, hs, k)
  }

  ghost predicate WithinLimitsAt(c: Config, hs: seq<Change>, k: nat)
    requires k < |hs|
  {
    && (hs[k].proposal.UpdateRule? ==> hs[k].proposal.pattern in c.rules)
    && (c.plugins != [] ==> EvolveAll(c, hs[..k + 1]).plugins != [])
  }

  lemma LimitsOfTheRest(c: Config, hs: seq<Change>)
    requires hs != [] && WithinLimits(c, hs)
    ensures WithinLimits(Evolve(c, hs[0].target, hs[0].proposal), hs[1..])
  {
    var next := Evolve(c, hs[0].target, hs[0].proposal);
    forall k | 0 <= k < |hs| - 1 ensures WithinLimitsAt(next, hs[1..], k) {
      assert WithinLimitsAt(c, hs, k + 1);
      assert hs[..k + 2][1..] == hs[1..][..k + 1];
      assert EvolveAll(c, hs[..k + 2]) == EvolveAll(next, hs[1..][..k + 1]);
      assert hs[1..][k] == hs[k + 1];
    }
  }

  lemma {:induction false} CleanWithinLimits(c: Config, hs: seq<Change>)
    requires NewNames(c, hs) && WithinLimits(c, hs)
    ensures AllClean(c, hs)
    decreases hs
  {
    if hs != [] {
      var next := Evolve(c, hs[0].target, hs[0].proposal);
      assert WithinLimitsAt(c, hs, 0) && hs[..1] == [hs[0]];
      assert EvolveAll(c, [hs[0]]) == EvolveAll(next, [hs[0]][1..]) == next;
      LimitsOfTheRest(c, hs);
      CleanWithinLimits(next, hs[1..]);
    }
  }

  /**
   For histories that register no name twice the condition is exact: undone
   latest first, they restore souls, rules and commands if and only if every
   change of them was one whose undo can be trusted when it was made.
   */
  lemma RollbackRestoresExactly(c: Config, hs: seq<Change>)
    requires Distinct(c.plugins) && NewNames(c, hs)
    ensures Seen(RollbackAll(EvolveAll(c, hs), Records(c, hs))) == Seen(c) <==> AllClean(c, hs)
  {
    if AllClean(c, hs) {
      EvolvedStaysDistinct(c, hs);
      RollbackRestores(c, hs, EvolveAll(c, hs));
    }
    if Seen(RollbackAll(EvolveAll(c, hs), Records(c, hs))) == Seen(c) {
      forall k | 0 <= k < |hs| ensures WithinLimitsAt(c, hs, k) { RestoredOnlyIf(c, hs, k); }
      CleanWithinLimits(c, hs);
    }
  }

  lemma {:induction false} EvolvedStaysDistinct(c: Config, hs: seq<Change>)
    requires Distinct(c.plugins) && AllClean(c, hs)
    ensures Distinct(EvolveAll(c, hs).plugins)
    decreases hs
  {
    if hs != [] {
      CleanKeepsDistinct(c, hs[0]);
      EvolvedStaysDistinct(Evolve(c, hs[0].target, hs[0].proposal), hs[1..]);
    }
  }

  // ---- The methods ----

  /** The files as the daemon edits them. */
  class Files {
    var config: Config

    constructor (c: Config)
      ensures config == c
    {
      config := c;
    }

    /** Snapshot first, then apply; a soul rewrite without a snapshot leaves everything alone. */
    method Propose(target: string, p: Proposal) returns (r: Record)
      modifies this
      ensures r == Snapshot(old(config), target, p)
      ensures config == Evolve(old(config), target, p)
    {
      var undo := ComputeUndo(target, p);
      r := Record(undo, target);
      if !(p.UpdateSoul? && undo.None?) {
        ApplyProposal(target, p);
      }
    }

    method Undo(r: Record)
      modifies this
      ensures config == Rollback(old(config), r)
    {
      if r.undo.Some? {
        ApplyProposal(r.target, r.undo.value);
      }
    }

    method ComputeUndo(target: string, p: Proposal) returns (undo: Option<Proposal>)
      ensures undo == Snapshot(config, target, p).undo
    {
      var prior := Prior(None, None, None);
      match p {
        case UpdateSoul(_) => prior := prior.(soul := Lookup(config.souls, target));
        case UpdateRule(pattern, _) => prior := prior.(rule := Lookup(config.rules, pattern));
        case Unregister(name) =>
          var cmd := PluginCommand(config.plugins, name);
          prior := prior.(cmd := cmd);
        case _ =>
      }
      undo := Invert(p, prior);
    }

    method ApplyProposal(target: string, p: Proposal)
      modifies this
      ensures config == Apply(old(config), target, p)
    {
      match p
      case UpdateSoul(content) => config := config.(souls := config.souls[target := content]);
      case UpdateRule(pattern, rule) => config := config.(rules := config.rules[pattern := rule]);
      case Register(name, command, env) =>
        if config.plugins != [] {
          config := config.(plugins := config.plugins + [Plugin(name, command, env)]);
        }
      case Unregister(name) =>
        var k := FindPlugin(config.plugins, name);
        if k < |config.plugins| {
          config := config.(plugins := config.plugins[..k] + config.plugins[k + 1..]);
        }
      case HotReload =>
      case RequestHardware =>
    }
  }
}
