/**
 The application shell: the online flag with its change-only notifications,
 and switching the visible section. The probe's outcome and the page's set
 of sections are inputs.
 */
module App {
  import opened JsValues
  import opened Ui
  import Api

  /** The shell's state: whether the last probe succeeded, and the section shown (none before the first). */
  datatype AppState = AppState(isOnline: bool, currentSection: Option<string>)

  /** The state the shell starts in: online, no section. */
  const Initial: AppState := AppState(true, None)

  // ---------------------------------------------------------------------------
  // checkConnection
  // ---------------------------------------------------------------------------

  /** What awaiting the gateway's probe gave: a flag, or a rejection. */
  datatype Probe = Resolved(online: bool) | Rejected

  datatype Checked = Checked(state: AppState, alerts: seq<Alert>, result: bool)

  const RestoredAlert: Alert := Alert("\U{2705} Conexi\U{00F3}n restablecida", Success)
  const OfflineAlert: Alert := Alert("\U{26A0}\U{FE0F} Sin conexi\U{00F3}n a internet", Warning)

  /**
   `checkConnection`: a resolved probe becomes the flag, with a notice only
   when it brings the shell back from offline; a rejected probe takes an
   online shell offline with a warning and leaves an offline one alone. The
   flag is returned. Nothing else (in particular no pending-sales retry)
   happens here.
   */
  function CheckConnection(st: AppState, probe: Probe): (r: Checked)
    ensures r.state.currentSection == st.currentSection
    ensures r.result == r.state.isOnline
    ensures probe.Resolved? ==> r.state.isOnline == probe.online
    ensures probe.Resolved? ==> (r.alerts == [RestoredAlert] <==> !st.isOnline && probe.online)
    ensures probe.Resolved? && !(!st.isOnline && probe.online) ==> r.alerts == []
    ensures probe.Rejected? ==> !r.state.isOnline
    ensures probe.Rejected? ==> r.alerts == (if st.isOnline then [OfflineAlert] else [])
  {
    match probe
    case Resolved(online) =>
      var alerts := if !st.isOnline && online then [RestoredAlert] else [];
      Checked(st.(isOnline := online), alerts, online)
    case Rejected =>
      if st.isOnline then Checked(st.(isOnline := false), [OfflineAlert], false)
      else Checked(st, [], false)
  }

  /**
   The gateway's probe never rejects, so with it the warning branch is
   unreachable: going offline is silent, and the only notice is the
   reconnection one.
   */
  lemma GoingOfflineIsSilent(st: AppState, t: Api.Transport)
    requires st.isOnline
    requires !Api.CheckConnection(t)
    ensures CheckConnection(st, Resolved(Api.CheckConnection(t))).alerts == []
    ensures !CheckConnection(st, Resolved(Api.CheckConnection(t))).state.isOnline
  {
  }

  /** The shell after a run of resolved probes, and the notices raised on the way. */
  function RunProbes(st: AppState, probes: seq<bool>): (AppState, seq<Alert>)
    decreases |probes|
  {
    if |probes| == 0 then (st, [])
    else
      var c := CheckConnection(st, Resolved(probes[0]));
      var (last, alerts) := RunProbes(c.state, probes[1..]);
      (last, c.alerts + alerts)
  }

  /** How many probes in the run bring the flag from false to true. */
  function Rises(online: bool, probes: seq<bool>): nat
    decreases |probes|
  {
    if |probes| == 0 then 0
    else (if !online && probes[0] then 1 else 0) + Rises(probes[0], probes[1..])
  }

  /**
   Change-only notification over a run of probes: one reconnection notice
   per offline-to-online change and no other notice; the flag ends as the
   last probe said.
   */
  lemma {:induction false} NoticesCountRises(st: AppState, probes: seq<bool>)
    ensures |RunProbes(st, probes).1| == Rises(st.isOnline, probes)
    ensures forall k :: 0 <= k < |RunProbes(st, probes).1| ==> RunProbes(st, probes).1[k] == RestoredAlert
    ensures RunProbes(st, probes).0.isOnline == if |probes| == 0 then st.isOnline else probes[|probes| - 1]
    ensures RunProbes(st, probes).0.currentSection == st.currentSection
    decreases |probes|
  {
    if |probes| > 0 {
      var c := CheckConnection(st, Resolved(probes[0]));
      NoticesCountRises(c.state, probes[1..]);
      var rest := RunProbes(c.state, probes[1..]).1;
      assert RunProbes(st, probes).1 == c.alerts + rest;
      if |probes| > 1 {
        assert probes[1..][|probes[1..]| - 1] == probes[|probes| - 1];
      }
    }
  }

  // ---------------------------------------------------------------------------
  // showSection
  // ---------------------------------------------------------------------------

  /** The sections that have a manager. */
  const Managers: set<string> := {"vender", "registros", "referencias", "liquidaciones"}

  /** The sections whose manager defines `onSectionHide` and `onSectionShow`. */
  datatype Hooks = Hooks(onHide: set<string>, onShow: set<string>)

  /** What a switch did: the new state, the section told it is hidden, and the section told it is shown. */
  datatype Switched = Switched(state: AppState, hidden: Option<string>, shown: Option<string>)

  /** The manager of a section, when it has one and defines the hook. */
  function HookOf(section: string, hook: set<string>): Option<string> {
    if section in Managers && section in hook then Some(section) else None
  }

  /**
   `showSection`: the current section's manager is told it is hidden whether
   or not the target exists; the current section becomes `id` only when the
   page has an element with that id, and only then is its manager told it is
   shown.
   */
  function ShowSection(st: AppState, id: string, existing: set<string>, hooks: Hooks): (r: Switched)
    ensures r.state.isOnline == st.isOnline
    ensures id in existing ==> r.state.currentSection == Some(id)
    ensures id !in existing ==> r.state == st
    ensures r.shown.Some? ==> id in existing && id in Managers && r.shown == Some(id)
    ensures id in existing && id in Managers && id in hooks.onShow ==> r.shown == Some(id)
    ensures r.hidden.Some? <==>
      st.currentSection.Some? && st.currentSection.value != "" && st.currentSection.value in Managers
      && st.currentSection.value in hooks.onHide
    ensures r.hidden.Some? ==> r.hidden == st.currentSection
  {
    var hidden :=
      if st.currentSection.Some? && st.currentSection.value != "" then HookOf(st.currentSection.value, hooks.onHide)
      else None;
    if id in existing then Switched(st.(currentSection := Some(id)), hidden, HookOf(id, hooks.onShow))
    else Switched(st, hidden, None)
  }

  /** Showing a section twice leaves the state as showing it once. */
  lemma ShowSectionIdempotent(st: AppState, id: string, existing: set<string>, hooks: Hooks)
    ensures var once := ShowSection(st, id, existing, hooks).state;
      ShowSection(once, id, existing, hooks).state == once
  {
  }

  // ---------------------------------------------------------------------------
  // init
  // ---------------------------------------------------------------------------

  datatype Started = Started(state: AppState, alerts: seq<Alert>, shown: Option<string>)

  /**
   `init`: probe first, then show the sales section. From the initial online
   state a successful probe raises no notice and a failed one none either
   (the flag just drops); only a rejected probe warns. No section is told it
   is hidden, since none was shown.
   */
  function Init(probe: Probe, existing: set<string>, hooks: Hooks): (r: Started)
    ensures probe.Resolved? ==> r.state.isOnline == probe.online && r.alerts == []
    ensures probe.Rejected? ==> !r.state.isOnline && r.alerts == [OfflineAlert]
    ensures r.state.currentSection == if "vender" in existing then Some("vender") else None
    ensures r.shown.Some? ==> r.shown == Some("vender")
  {
    var c := CheckConnection(Initial, probe);
    var s := ShowSection(c.state, "vender", existing, hooks);
    assert s.hidden == None;
    Started(s.state, c.alerts, s.shown)
  }

  /**
   Starting up never announces a reconnection: a resolved probe leaves the
   flag and notices of a one-probe run from the initial state, and the sales
   section, once shown, stays put when shown again.
   */
  lemma InitNeverRestores(probe: Probe, existing: set<string>, hooks: Hooks)
    ensures RestoredAlert !in Init(probe, existing, hooks).alerts
    ensures probe.Resolved? ==>
      && Init(probe, existing, hooks).state.isOnline == RunProbes(Initial, [probe.online]).0.isOnline
      && Init(probe, existing, hooks).alerts == RunProbes(Initial, [probe.online]).1
    ensures var st := Init(probe, existing, hooks).state;
      ShowSection(st, "vender", existing, hooks).state == st
  {
    if probe.Resolved? {
      assert [probe.online][1..] == [];
    }
    ShowSectionIdempotent(CheckConnection(Initial, probe).state, "vender", existing, hooks);
  }
}
