/** The engines the launcher offers and the bookkeeping of the one game
    process it runs: which executable a launch starts, which calls a launch
    or a restart issues, and what becomes of the tracked pid. The runtime's
    answers are parameters: `launched` is the pid of the started process,
    or None when the runtime refused to start it. */
module Tracker {
  import opened JsStrings
  import opened Guest

  datatype Engine = Engine(id: string, name: string, description: string, executablePath: string)

  /** The engine table, in the order the selector shows it. */
  const Engines: seq<Engine> := [
    Engine("pslice", "P-Slice Engine", "Psych Engine fork with V-Slice features.",
           "/usr/local/bin/P-Slice Engine/Funkin"),
    Engine("vslice", "V-Slice (Funkin)", "The actively developed base game with PolyMod support.",
           "/usr/local/bin/V-Slice (Funkin)/Funkin"),
    Engine("psychonline", "Psych Online", "Psych Engine 0.7.3 with online multiplayer.",
           "/usr/local/bin/Psych Online/Funkin"),
    Engine("novaflare", "NovaFlare Engine", "Engine with online multiplayer support.",
           "/usr/local/bin/NovaFlare Engine/Funkin"),
    Engine("psych104", "Psych Engine 1.0.4", "Latest version of Psych Engine.",
           "/usr/local/bin/Psych Engine 1.0.4/Funkin"),
    Engine("psych073", "Psych Engine 0.7.3", "A stable and popular version of Psych Engine.",
           "/usr/local/bin/Psych Engine 0.7.3/Funkin"),
    Engine("psych063", "Psych Engine 0.6.3", "Classic version of Psych Engine.",
           "/usr/local/bin/Psych Engine 0.6.3/Funkin"),
    Engine("shadow", "Shadow Engine", "A modified version of Psych Engine 0.7.3.",
           "/usr/local/bin/Shadow Engine/Funkin"),
    Engine("codename", "Codename Engine", "A classic engine.",
           "/usr/local/bin/Codename Engine/Funkin"),
    Engine("default", "Alpine X11 Shell", "Launch a basic Alpine Linux shell for testing.",
           "/usr/bin/xterm")
  ]

  /** `FNF_ENGINES.find(e => e.id === id)`: the first engine with that id. */
  function FindEngine(engines: seq<Engine>, id: string): (r: Option<Engine>)
    ensures r.None? <==> forall k | 0 <= k < |engines| :: engines[k].id != id
    ensures r.Some? ==> exists k | 0 <= k < |engines| ::
      && engines[k] == r.value && engines[k].id == id
      && forall j | 0 <= j < k :: engines[j].id != id
  {
    if engines == [] then None
    else if engines[0].id == id then Some(engines[0])
    else
      var r := FindEngine(engines[1..], id);
      assert forall k | 1 <= k < |engines| :: engines[1..][k - 1] == engines[k];
      if r.Some? then
        var k :| 0 <= k < |engines[1..]| && engines[1..][k] == r.value
          && forall j | 0 <= j < k :: engines[1..][j].id != id;
        assert engines[k + 1] == r.value;
        r
      else r
  }

  /** JavaScript truthiness of the selected engine id: null and "" are
      falsy. */
  predicate EngineSelected(current: Option<string>) {
    current.Some? && current.value != ""
  }

  /** JavaScript truthiness of `fnfPid`: null and 0 are falsy. */
  predicate PidTruthy(pid: Option<int>) {
    pid.Some? && pid.value != 0
  }

  /** The engine a launch starts: none when the runtime is not up, when no
      engine is selected or when no engine of `engines` has the selected
      id. */
  function EngineToLaunch(engines: seq<Engine>, ready: bool, current: Option<string>): (r: Option<Engine>)
    ensures r.Some? <==>
      ready && EngineSelected(current) && exists k | 0 <= k < |engines| :: engines[k].id == current.value
    ensures r.Some? ==> r.value.id == current.value && r.value in engines
  {
    if !ready || !EngineSelected(current) then None
    else FindEngine(engines, current.value)
  }

  /** The calls a launch issues: one background run of the engine's
      executable, or nothing. */
  function LaunchCalls(engines: seq<Engine>, ready: bool, current: Option<string>): (cs: seq<Call>)
    ensures |cs| <= 1
    ensures cs != [] <==> EngineToLaunch(engines, ready, current).Some?
    ensures cs != [] ==> cs[0] == Launch(EngineToLaunch(engines, ready, current).value.executablePath)
  {
    match EngineToLaunch(engines, ready, current)
    case None => []
    case Some(e) => [Launch(e.executablePath)]
  }

  /** The tracked pid after a launch: the new process's pid when one was
      started, otherwise unchanged. */
  function PidAfterLaunch(engines: seq<Engine>, ready: bool, current: Option<string>, pid: Option<int>, launched: Option<int>): (r: Option<int>)
    ensures EngineToLaunch(engines, ready, current).None? ==> r == pid
    ensures launched.None? ==> r == pid
    ensures EngineToLaunch(engines, ready, current).Some? && launched.Some? ==> r == launched
    ensures r != pid ==> r == launched && EngineToLaunch(engines, ready, current).Some?
  {
    if EngineToLaunch(engines, ready, current).Some? && launched.Some? then launched else pid
  }

  /** The calls a restart issues: a kill of the tracked process when its pid
      is truthy, then the launch. */
  function RestartCalls(engines: seq<Engine>, ready: bool, current: Option<string>, pid: Option<int>): (cs: seq<Call>)
    ensures (exists k | 0 <= k < |cs| :: cs[k].Kill?) <==> PidTruthy(pid)
    ensures PidTruthy(pid) ==> cs[0] == Kill(pid.value)
    ensures forall k | 0 <= k < |cs| :: cs[k].Kill? ==> k == 0
    ensures forall k | 0 <= k < |cs| :: cs[k].Kill? || cs[k].Launch?
    ensures cs == (if PidTruthy(pid) then [Kill(pid.value)] else []) + LaunchCalls(engines, ready, current)
  {
    var launch := LaunchCalls(engines, ready, current);
    if PidTruthy(pid) then
      var cs := [Kill(pid.value)] + launch;
      assert cs[0].Kill?;
      assert forall k | 1 <= k < |cs| :: cs[k] == launch[k - 1];
      cs
    else launch
  }

  /** The tracked pid after a restart: a truthy pid is dropped whether or
      not the kill worked, then the launch runs. */
  function PidAfterRestart(engines: seq<Engine>, ready: bool, current: Option<string>, pid: Option<int>, launched: Option<int>): (r: Option<int>)
    ensures PidTruthy(pid) ==> r.None? || r == launched
    ensures !PidTruthy(pid) && (EngineToLaunch(engines, ready, current).None? || launched.None?) ==> r == pid
    ensures PidTruthy(pid) && (EngineToLaunch(engines, ready, current).None? || launched.None?) ==> r.None?
    ensures EngineToLaunch(engines, ready, current).Some? && launched.Some? ==> r == launched
  {
    PidAfterLaunch(engines, ready, current, if PidTruthy(pid) then None else pid, launched)
  }

  /** After a restart the old process is never still tracked: the pid is
      either the new process's or gone, unless no kill was due. */
  lemma RestartForgetsOldProcess(engines: seq<Engine>, ready: bool, current: Option<string>, pid: Option<int>, launched: Option<int>)
    requires PidTruthy(pid)
    ensures var r := PidAfterRestart(engines, ready, current, pid, launched);
      && (EngineToLaunch(engines, ready, current).Some? && launched.Some? ==> r == launched)
      && (EngineToLaunch(engines, ready, current).None? || launched.None? ==> r.None?)
  {
  }

  /** A pid of 0 is falsy: no kill is issued and it is kept through a
      failed launch. */
  lemma PidZeroSurvivesRestart(engines: seq<Engine>, ready: bool, current: Option<string>)
    ensures RestartCalls(engines, ready, current, Some(0)) == LaunchCalls(engines, ready, current)
    ensures PidAfterRestart(engines, ready, current, Some(0), None) == Some(0)
  {
  }

  /** Engine ids are unique, so the first match is the only match. */
  lemma EngineIdsDistinct()
    ensures forall i, j | 0 <= i < j < |Engines| :: Engines[i].id != Engines[j].id
  {
  }

  /** An engine preceded by no other engine with its id is the one found. */
  lemma FindEngineAt(engines: seq<Engine>, id: string, k: nat)
    requires k < |engines| && engines[k].id == id
    requires forall j | 0 <= j < k :: engines[j].id != id
    ensures FindEngine(engines, id) == Some(engines[k])
  {
  }

  /** The lookup the V-Slice dispatch relies on. */
  lemma VSliceLookup()
    ensures FindEngine(Engines, "vslice") == Some(Engines[1])
    ensures Engines[1].executablePath == "/usr/local/bin/V-Slice (Funkin)/Funkin"
  {
    FindEngineAt(Engines, "vslice", 1);
  }

  /** The "psych" id the installer's switch names belongs to no engine. */
  lemma PsychIdUnused()
    ensures FindEngine(Engines, "psych").None?
  {
    assert forall k | 0 <= k < |Engines| :: Engines[k].id != "psych";
  }
}
