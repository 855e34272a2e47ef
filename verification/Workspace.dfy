/** Workspace preferences: the dock layout and its legacy projection, two
    representations of one state that every operation must keep in agreement. */
module Workspaces {
  import opened Sequences
  import opened Dock

  datatype LeftTab = ConnectionsTab | FilesTab
  datatype RightTab = SessionsTab | HistoryTab
  datatype BottomTab = SendTab | ShellTab | TransfersTab | ApiTab

  datatype Workspace = Workspace(
    leftVisible: bool, rightVisible: bool, bottomVisible: bool,
    rightWidth: nat, bottomHeight: nat,
    leftTab: LeftTab, rightTab: RightTab, bottomTab: BottomTab,
    layout: Layout)

  function LeftPanel(tab: LeftTab): Panel {
    match tab case ConnectionsTab => Connections case FilesTab => RemoteFiles
  }

  function RightPanel(tab: RightTab): Panel {
    match tab case SessionsTab => Sessions case HistoryTab => History
  }

  function BottomPanel(tab: BottomTab): Panel {
    match tab case SendTab => Send case ShellTab => EmbeddedShell case TransfersTab => Transfers case ApiTab => Relay
  }

  /** The panel the legacy tab field of a zone names. */
  function TabPanel(w: Workspace, zone: Zone): Panel {
    match zone
    case Left => LeftPanel(w.leftTab)
    case Right => RightPanel(w.rightTab)
    case Bottom => BottomPanel(w.bottomTab)
  }

  /** The legacy fields can name exactly the panels that default to the zone. */
  predicate IsLegacy(p: Panel, zone: Zone) {
    DefaultZone(p) == zone
  }

  // ---- migration and projection ------------------------------------------

  function MigratedStack(s: Stack, tabPanel: Panel, zone: Zone): Stack {
    if (s.active.None? || IsLegacy(s.active.value, zone)) && tabPanel in s.panels then s.(active := Some(tabPanel))
    else s
  }

  /** The legacy tabs decide the active panels where those are expressible as tabs. */
  function Migrated(w: Workspace): Workspace {
    w.(layout := Layout(MigratedStack(w.layout.left, TabPanel(w, Left), Left),
                        MigratedStack(w.layout.right, TabPanel(w, Right), Right),
                        MigratedStack(w.layout.bottom, TabPanel(w, Bottom), Bottom)))
  }

  function LeftTabOf(active: Option<Panel>, previous: LeftTab): LeftTab {
    match active
    case Some(Connections) => ConnectionsTab
    case Some(RemoteFiles) => FilesTab
    case _ => previous
  }

  function RightTabOf(active: Option<Panel>, previous: RightTab): RightTab {
    match active
    case Some(Sessions) => SessionsTab
    case Some(History) => HistoryTab
    case _ => previous
  }

  function BottomTabOf(active: Option<Panel>, previous: BottomTab): BottomTab {
    match active
    case Some(Send) => SendTab
    case Some(EmbeddedShell) => ShellTab
    case Some(Transfers) => TransfersTab
    case Some(Relay) => ApiTab
    case _ => previous
  }

  /** The legacy fields recomputed from the layout. */
  function Synced(w: Workspace): Workspace {
    Workspace(w.layout.left.visible, w.layout.right.visible, w.layout.bottom.visible,
              w.layout.right.extent, w.layout.bottom.extent,
              LeftTabOf(w.layout.left.active, w.leftTab),
              RightTabOf(w.layout.right.active, w.rightTab),
              BottomTabOf(w.layout.bottom.active, w.bottomTab),
              w.layout)
  }

  /** The legacy visibilities and sizes overwrite those of the layout. */
  function Adopted(w: Workspace): Workspace {
    var l := w.layout;
    w.(layout := Layout(l.left.(visible := w.leftVisible),
                        l.right.(visible := w.rightVisible, extent := w.rightWidth),
                        l.bottom.(visible := w.bottomVisible, extent := w.bottomHeight)))
  }

  /** What loading starts from: sizes in range and a normal layout. */
  function Clamped(w: Workspace): Workspace {
    w.(rightWidth := ClampExtent(w.rightWidth, Right), bottomHeight := ClampExtent(w.bottomHeight, Bottom),
       layout := Normalize(w.layout))
  }

  function Normalized(w: Workspace): Workspace {
    var m := Migrated(Adopted(Clamped(w)));
    Synced(m.(layout := Normalize(m.layout)))
  }

  // ---- agreement ---------------------------------------------------------

  /** The layout is normal and the legacy fields say the same as it does, as far as
      they can: a tab speaks for its zone when the active panel is one it can name. */
  ghost predicate InAgreement(w: Workspace) {
    && Normal(w.layout)
    && w.leftVisible == w.layout.left.visible && w.rightVisible == w.layout.right.visible
    && w.bottomVisible == w.layout.bottom.visible
    && w.rightWidth == w.layout.right.extent && w.bottomHeight == w.layout.bottom.extent
    && forall zone: Zone :: TabAgrees(w, zone)
  }

  predicate TabAgrees(w: Workspace, zone: Zone) {
    var active := w.layout.At(zone).active;
    active.Some? && IsLegacy(active.value, zone) ==> TabPanel(w, zone) == active.value
  }

  lemma SyncedTabsAgree(w: Workspace, zone: Zone)
    ensures TabAgrees(Synced(w), zone)
  {
  }

  lemma SyncedAgrees(w: Workspace)
    requires Normal(w.layout)
    ensures InAgreement(Synced(w))
  {
    hide Normal, TabAgrees;
    forall zone: Zone ensures TabAgrees(Synced(w), zone) { SyncedTabsAgree(w, zone); }
  }

  lemma MigratedStackStaysOk(s: Stack, p: Panel, zone: Zone)
    requires StackOk(s, zone)
    ensures StackOk(MigratedStack(s, p, zone), zone)
  {
  }

  /** Whatever is loaded, normalizing it brings both representations into agreement. */
  lemma NormalizedAgrees(w: Workspace)
    ensures InAgreement(Normalized(w))
  {
    hide Normal, InAgreement, Normalize, Migrated, Adopted, Synced;
    var a := Clamped(w);
    var m := Migrated(Adopted(a));
    var n := m.(layout := Normalize(m.layout));
    NormalizeIsNormal(m.layout);
    SyncedAgrees(n);
  }

  lemma AgreementMigratesNothing(w: Workspace, zone: Zone)
    requires StackOk(w.layout.At(zone), zone) && TabAgrees(w, zone)
    ensures MigratedStack(w.layout.At(zone), TabPanel(w, zone), zone) == w.layout.At(zone)
  {
  }

  lemma AgreementSyncsNothing(w: Workspace)
    requires InAgreement(w)
    ensures Synced(w) == w
  {
    hide Normal;
    assert TabAgrees(w, Left) && TabAgrees(w, Right) && TabAgrees(w, Bottom);
  }

  /** Normalizing changes nothing exactly on the states in agreement, so it is
      idempotent, and saving then loading such a state gives it back. */
  lemma NormalizedFixesIff(w: Workspace)
    ensures Normalized(w) == w <==> InAgreement(w)
    ensures Normalized(Normalized(w)) == Normalized(w)
  {
    hide InAgreement, Normalized;
    NormalizedAgrees(w);
    AgreementStays(Normalized(w));
    if InAgreement(w) { AgreementStays(w); }
  }

  lemma AgreementStays(w: Workspace)
    requires InAgreement(w)
    ensures Normalized(w) == w
  {
    hide Normalize, Synced, MigratedStack, TabAgrees, Partition;
    NormalStays(w.layout);
    AgreementMigratesNothing(w, Left);
    AgreementMigratesNothing(w, Right);
    AgreementMigratesNothing(w, Bottom);
    AgreementSyncsNothing(w);
    var a := Clamped(w);
    assert a == w && Adopted(w) == w && Migrated(w) == w;
  }

  // ---- operations and runs -----------------------------------------------

  datatype Op = Move(panel: Panel, zone: Zone, index: nat) | SetVisible(zone: Zone, visible: bool)

  function Step(w: Workspace, op: Op): Workspace {
    match op
    case Move(p, zone, i) => Synced(w.(layout := MovePanel(w.layout, p, zone, i)))
    case SetVisible(zone, visible) =>
      Synced(w.(layout := w.layout.With(zone, w.layout.At(zone).(visible := visible))))
  }

  /** A move moves in the layout; a visibility change shows or hides its zone and
      touches no other part of the layout. */
  lemma StepActsOnLayout(w: Workspace, op: Op, zone: Zone)
    ensures op.Move? ==> Step(w, op).layout == MovePanel(w.layout, op.panel, op.zone, op.index)
    ensures op.SetVisible? ==>
              var s, t := w.layout.At(zone), Step(w, op).layout.At(zone);
              t == Stack(s.panels, s.active, if zone == op.zone then op.visible else s.visible, s.extent)
  {
    hide MovePanel;
  }

  function Run(w: Workspace, ops: seq<Op>): Workspace
    decreases |ops|
  {
    if ops == [] then w else Run(Step(w, ops[0]), ops[1..])
  }

  lemma StepKeepsAgreement(w: Workspace, op: Op)
    requires InAgreement(w)
    ensures InAgreement(Step(w, op))
  {
    hide Synced, MovePanel, NoDuplicates, TabAgrees;
    match op {
      case Move(p, zone, i) =>
        MovePanelPlaces(w.layout, p, zone, i, zone);
        SyncedAgrees(w.(layout := MovePanel(w.layout, p, zone, i)));
      case SetVisible(zone, visible) =>
        var l := w.layout.With(zone, w.layout.At(zone).(visible := visible));
        assert l.Panels() == w.layout.Panels();
        SyncedAgrees(w.(layout := l));
    }
  }

  /** Any run of moves and visibility changes from a loaded state stays in agreement,
      so persisting and reloading any state it reaches returns that state. */
  lemma {:induction false} RunsSurviveSaving(w: Workspace, ops: seq<Op>)
    requires InAgreement(w)
    ensures InAgreement(Run(w, ops)) && Normalized(Normalized(Run(w, ops))) == Run(w, ops)
    decreases |ops|
  {
    hide InAgreement, Normalized, Step;
    if ops == [] {
      AgreementStays(w);
    } else {
      StepKeepsAgreement(w, ops[0]);
      RunsSurviveSaving(Step(w, ops[0]), ops[1..]);
    }
  }

  /** Loading honours a legacy tab: where tabs can name the zone's active panel and the
      zone holds the named panel, that panel ends up active; elsewhere the layout's does. */
  lemma MigrationHonoursTabs(w: Workspace, zone: Zone)
    ensures var s := Normalize(w.layout).At(zone);
            Normalized(w).layout.At(zone).active
            == if TabPanel(w, zone) in s.panels && (s.active.Some? ==> IsLegacy(s.active.value, zone))
               then Some(TabPanel(w, zone)) else s.active
    ensures forall z :: Normalized(w).layout.At(z).panels == Normalize(w.layout).At(z).panels
  {
    hide Normalize, NoDuplicates, Partition;
    var n := Normalize(w.layout);
    NormalizeIsNormal(w.layout);
    var a := Clamped(w);
    var m := Migrated(Adopted(a));
    assert forall z :: m.layout.At(z).panels == n.At(z).panels;
    assert m.layout.Panels() == n.Panels();
    MigratedIsNormal(a);
    NormalStays(m.layout);
  }

  /** On loading, the legacy visibilities and sizes win over whatever the layout said, in
      both representations; only the left width is the layout's own. A tab names its
      zone's active panel if it can, and is otherwise what it was. */
  lemma LegacyFieldsWin(w: Workspace)
    ensures var n := Normalized(w);
            && n.leftVisible == w.leftVisible == n.layout.left.visible
            && n.rightVisible == w.rightVisible == n.layout.right.visible
            && n.bottomVisible == w.bottomVisible == n.layout.bottom.visible
            && n.rightWidth == n.layout.right.extent == Min(Max(w.rightWidth, 220), 600)
            && n.bottomHeight == n.layout.bottom.extent == Min(Max(w.bottomHeight, 120), 520)
            && n.layout.left.extent == Min(Max(w.layout.left.extent, 200), 600)
            && forall zone: Zone ::
                 var active := n.layout.At(zone).active;
                 TabPanel(n, zone)
                 == if active.Some? && IsLegacy(active.value, zone) then active.value else TabPanel(w, zone)
  {
    hide Normalized, Normalize, NormalizedFor, Normal, Synced;
    var a := Clamped(w);
    NormalizedInOnePass(w);
    NormalizeKeepsTheRest(w.layout, Left);
    var m := Migrated(Adopted(a));
    SyncedFields(m);
    forall zone: Zone
      ensures var active := Normalized(w).layout.At(zone).active;
              TabPanel(Normalized(w), zone)
              == if active.Some? && IsLegacy(active.value, zone) then active.value else TabPanel(w, zone)
    {
      TabsAfterSync(m, zone);
      assert TabPanel(m, zone) == TabPanel(w, zone);
    }
  }

  /** The second normalization of the layout finds nothing to do. */
  lemma NormalizedInOnePass(w: Workspace)
    ensures Normalized(w) == Synced(Migrated(Adopted(Clamped(w))))
  {
    hide Normalize, Normal, Migrated, Adopted, Synced;
    NormalizeIsNormal(w.layout);
    MigratedIsNormal(Clamped(w));
    NormalStays(Migrated(Adopted(Clamped(w))).layout);
  }

  predicate TabAfterSync(m: Workspace, zone: Zone) {
    var active := m.layout.At(zone).active;
    TabPanel(Synced(m), zone)
    == if active.Some? && IsLegacy(active.value, zone) then active.value else TabPanel(m, zone)
  }

  lemma TabsAfterSync(m: Workspace, zone: Zone)
    ensures TabAfterSync(m, zone)
  {
  }

  lemma SyncedFields(m: Workspace)
    ensures var n := Synced(m);
            && n.layout == m.layout
            && n.leftVisible == m.layout.left.visible && n.rightVisible == m.layout.right.visible
            && n.bottomVisible == m.layout.bottom.visible
            && n.rightWidth == m.layout.right.extent && n.bottomHeight == m.layout.bottom.extent
  {
  }

  lemma MigratedIsNormal(a: Workspace)
    requires Normal(a.layout)
    requires a.rightWidth == ClampExtent(a.rightWidth, Right) && a.bottomHeight == ClampExtent(a.bottomHeight, Bottom)
    ensures Normal(Migrated(Adopted(a)).layout)
  {
    hide NoDuplicates;
    var b := Adopted(a);
    var m := Migrated(b);
    assert m.layout.Panels() == a.layout.Panels();
    MigratedStackStaysOk(b.layout.left, TabPanel(b, Left), Left);
    MigratedStackStaysOk(b.layout.right, TabPanel(b, Right), Right);
    MigratedStackStaysOk(b.layout.bottom, TabPanel(b, Bottom), Bottom);
  }

  // ---- the objects -------------------------------------------------------

  /** `retain` with a growing list of panels already seen. */
  method RetainUnseen(panels: seq<Panel>, seen: seq<Panel>) returns (kept: seq<Panel>, nowSeen: seq<Panel>)
    ensures kept == Firsts(panels, seen) && nowSeen == seen + kept
  {
    kept, nowSeen := [], seen;
    var rest := panels;
    while rest != []
      invariant kept + Firsts(rest, nowSeen) == Firsts(panels, seen)
      invariant nowSeen == seen + kept
    {
      var p := rest[0];
      if p !in nowSeen {
        Assoc(kept, [p], Firsts(rest[1..], nowSeen + [p]));
        Assoc(seen, kept, [p]);
        kept := kept + [p];
        nowSeen := nowSeen + [p];
      }
      rest := rest[1..];
    }
    assert kept + [] == kept;
  }

  method RemovePanel(panels: seq<Panel>, p: Panel) returns (kept: seq<Panel>)
    ensures kept == Without(panels, p)
  {
    kept := [];
    for i := 0 to |panels|
      invariant kept == Without(panels[..i], p)
    {
      assert panels[..i + 1] == panels[..i] + [panels[i]];
      WithoutConcat(panels[..i], [panels[i]], p);
      if panels[i] != p {
        kept := kept + [panels[i]];
      }
    }
    assert panels[..|panels|] == panels;
  }

  class DockLayout {
    var left: Stack
    var right: Stack
    var bottom: Stack

    ghost function State(): Layout
      reads this
    {
      Layout(left, right, bottom)
    }

    constructor (l: Layout)
      ensures State() == l
    {
      left, right, bottom := l.left, l.right, l.bottom;
    }

    method Get(zone: Zone) returns (s: Stack)
      ensures s == State().At(zone)
    {
      match zone {
        case Left => s := left;
        case Right => s := right;
        case Bottom => s := bottom;
      }
    }

    method Set(zone: Zone, s: Stack)
      modifies this
      ensures State() == old(State()).With(zone, s)
    {
      match zone {
        case Left => left := s;
        case Right => right := s;
        case Bottom => bottom := s;
      }
    }

    /** Zone by zone, drops panels seen before. */
    method RemoveRepeats() returns (seen: seq<Panel>)
      modifies this
      ensures var l := old(State());
              && State() == Layout(l.left.(panels := KeptIn(l, Left)), l.right.(panels := KeptIn(l, Right)),
                                   l.bottom.(panels := KeptIn(l, Bottom)))
              && seen == Seen(l)
    {
      hide Firsts;
      var kept;
      kept, seen := RetainUnseen(left.panels, []);
      assert [] + kept == kept;
      left := left.(panels := kept);
      kept, seen := RetainUnseen(right.panels, seen);
      right := right.(panels := kept);
      kept, seen := RetainUnseen(bottom.panels, seen);
      bottom := bottom.(panels := kept);
    }

    /** Appends every panel not seen yet to its default zone. */
    method AddMissing(seen: seq<Panel>)
      modifies this
      ensures State() == Filled(old(State()), ALL, seen)
    {
      hide Missing, NoDuplicates, Filled;
      ghost var l := State();
      var known := seen;
      FilledNone(l, seen);
      AllPanelsAreDistinct();
      for i := 0 to |ALL|
        invariant forall p: Panel :: p in known <==> p in seen || p in ALL[..i]
        invariant State() == Filled(l, ALL[..i], seen)
      {
        var p := ALL[i];
        assert ALL[..i + 1] == ALL[..i] + [p];
        NotBefore(ALL, i);
        FilledOneMore(l, ALL[..i], p, seen);
        if p !in known {
          var s := Get(DefaultZone(p));
          Set(DefaultZone(p), s.(panels := s.panels + [p]));
          known := known + [p];
        }
      }
      assert ALL[..|ALL|] == ALL;
    }

    method Repair(zone: Zone)
      modifies this
      ensures State() == old(State()).With(zone, NormalizedFor(old(State()).At(zone), zone))
    {
      hide Firsts;
      var s := Get(zone);
      var unique, seen := RetainUnseen(s.panels, []);
      var active := if s.active.Some? && s.active.value in unique then s.active else None;
      if active.None? && unique != [] {
        active := Some(unique[0]);
      }
      Set(zone, Stack(unique, active, s.visible, Min(Max(s.extent, MinExtent(zone)), MaxExtent(zone))));
    }

    method NormalizeLayout()
      modifies this
      ensures State() == Normalize(old(State()))
    {
      hide KeptIn, Missing, Seen, NormalizedFor;
      var seen := RemoveRepeats();
      AddMissing(seen);
      Repair(Left);
      Repair(Right);
      Repair(Bottom);
    }

    method Drop(zone: Zone, p: Panel)
      modifies this
      ensures State() == old(State()).With(zone, Dropped(old(State()).At(zone), p))
    {
      var s := Get(zone);
      var kept := RemovePanel(s.panels, p);
      Set(zone, Stack(kept, if s.active == Some(p) then None else s.active, s.visible, s.extent));
    }

    method DropEverywhere(p: Panel)
      modifies this
      ensures State() == DroppedAll(old(State()), p)
    {
      hide Dropped;
      Drop(Left, p);
      Drop(Right, p);
      Drop(Bottom, p);
    }

    /** Takes the panel out wherever it is and inserts it in the target zone. */
    method Place(p: Panel, target: Zone, index: nat)
      modifies this
      ensures State() == Moved(old(State()), p, target, index)
    {
      hide DroppedAll, Inserted;
      var source := if p in left.panels then Some(Left) else if p in right.panels then Some(Right)
                    else if p in bottom.panels then Some(Bottom) else None;
      var wasActive := false;
      if source.Some? {
        var s := Get(source.value);
        wasActive := s.active == Some(p);
      }
      var before := Get(target);
      DropEverywhere(p);
      var t := Get(target);
      var panels := InsertPanel(t.panels, index, p);
      var active := if wasActive || source != Some(target) || !before.visible then Some(p) else t.active;
      Set(target, Stack(panels, active, true, t.extent));
    }

    method Relocate(p: Panel, target: Zone, index: nat)
      modifies this
      ensures State() == MovePanel(old(State()), p, target, index)
    {
      hide Normalize, Moved;
      NormalizeLayout();
      Place(p, target, index);
      NormalizeLayout();
    }
  }

  method InsertPanel(panels: seq<Panel>, index: nat, p: Panel) returns (r: seq<Panel>)
    ensures r == Inserted(panels, index, p)
  {
    var at := if index < |panels| then index else |panels|;
    r := panels[..at] + [p] + panels[at..];
  }

  /** A layout with the panels of `all` that are not in `seen` appended to their default zones. */
  function Filled(l: Layout, all: seq<Panel>, seen: seq<Panel>): Layout {
    Layout(l.left.(panels := l.left.panels + Missing(all, Left, seen)),
           l.right.(panels := l.right.panels + Missing(all, Right, seen)),
           l.bottom.(panels := l.bottom.panels + Missing(all, Bottom, seen)))
  }

  lemma FilledNone(l: Layout, seen: seq<Panel>)
    ensures Filled(l, [], seen) == l
  {
    assert forall zone :: l.At(zone).panels + [] == l.At(zone).panels;
  }

  lemma FilledOneMore(l: Layout, all: seq<Panel>, p: Panel, seen: seq<Panel>)
    ensures var f := Filled(l, all, seen);
            var s := f.At(DefaultZone(p));
            Filled(l, all + [p], seen) == if p in seen then f else f.With(DefaultZone(p), s.(panels := s.panels + [p]))
  {
    hide Missing;
    MissingSnoc(all, p, seen);
    assert forall zone :: Missing(all + [p], zone, seen)
                          == Missing(all, zone, seen) + (if DefaultZone(p) == zone && p !in seen then [p] else []);
  }

  lemma {:induction false} MissingSnoc(all: seq<Panel>, p: Panel, seen: seq<Panel>)
    ensures forall zone :: Missing(all + [p], zone, seen)
                           == Missing(all, zone, seen) + (if DefaultZone(p) == zone && p !in seen then [p] else [])
  {
    if all == [] {
      assert all + [p] == [p];
    } else {
      assert (all + [p])[1..] == all[1..] + [p];
      MissingSnoc(all[1..], p, seen);
    }
  }

  lemma NotBefore(panels: seq<Panel>, i: nat)
    requires NoDuplicates(panels) && i < |panels|
    ensures panels[i] !in panels[..i]
  {
    NoDuplicatesMeansDistinct(panels);
  }

  class WorkspacePreferences {
    var leftVisible: bool
    var rightVisible: bool
    var bottomVisible: bool
    var rightWidth: nat
    var bottomHeight: nat
    var leftTab: LeftTab
    var rightTab: RightTab
    var bottomTab: BottomTab
    const dock: DockLayout

    ghost function State(): Workspace
      reads this, dock
    {
      Workspace(leftVisible, rightVisible, bottomVisible, rightWidth, bottomHeight,
                leftTab, rightTab, bottomTab, dock.State())
    }

    constructor (w: Workspace)
      ensures State() == w && fresh(dock)
    {
      leftVisible, rightVisible, bottomVisible := w.leftVisible, w.rightVisible, w.bottomVisible;
      rightWidth, bottomHeight := w.rightWidth, w.bottomHeight;
      leftTab, rightTab, bottomTab := w.leftTab, w.rightTab, w.bottomTab;
      dock := new DockLayout(w.layout);
    }

    method SyncLegacyProjection()
      modifies this
      ensures State() == Synced(old(State()))
    {
      leftVisible, rightVisible, bottomVisible := dock.left.visible, dock.right.visible, dock.bottom.visible;
      rightWidth, bottomHeight := dock.right.extent, dock.bottom.extent;
      leftTab := LeftTabOf(dock.left.active, leftTab);
      rightTab := RightTabOf(dock.right.active, rightTab);
      bottomTab := BottomTabOf(dock.bottom.active, bottomTab);
    }

    method MigrateZone(zone: Zone, p: Panel)
      modifies dock
      ensures dock.State() == old(dock.State()).With(zone, MigratedStack(old(dock.State()).At(zone), p, zone))
    {
      var s := dock.Get(zone);
      var legacy := s.active.None? || match zone
        case Left => s.active.value == Connections || s.active.value == RemoteFiles
        case Right => s.active.value == Sessions || s.active.value == History
        case Bottom => s.active.value == Send || s.active.value == EmbeddedShell
                       || s.active.value == Transfers || s.active.value == Relay;
      if legacy && p in s.panels {
        dock.Set(zone, s.(active := Some(p)));
      }
    }

    method MigrateLegacyActiveTabs()
      modifies dock
      ensures State() == Migrated(old(State()))
    {
      hide MigratedStack;
      MigrateZone(Left, LeftPanel(leftTab));
      MigrateZone(Right, RightPanel(rightTab));
      MigrateZone(Bottom, BottomPanel(bottomTab));
    }

    method AdoptLegacySizes()
      modifies dock
      ensures State() == Adopted(old(State()))
    {
      dock.left := dock.left.(visible := leftVisible);
      dock.right := dock.right.(visible := rightVisible, extent := rightWidth);
      dock.bottom := dock.bottom.(visible := bottomVisible, extent := bottomHeight);
    }

    method NormalizePreferences()
      modifies this, dock
      ensures State() == Normalized(old(State()))
    {
      hide Normalize, Synced, Migrated, Adopted, ClampExtent;
      rightWidth := ClampExtent(rightWidth, Right);
      bottomHeight := ClampExtent(bottomHeight, Bottom);
      dock.NormalizeLayout();
      AdoptLegacySizes();
      MigrateLegacyActiveTabs();
      dock.NormalizeLayout();
      SyncLegacyProjection();
    }

    method Relocate(p: Panel, target: Zone, index: nat)
      modifies this, dock
      ensures State() == Step(old(State()), Move(p, target, index))
    {
      hide MovePanel, Synced;
      dock.Relocate(p, target, index);
      SyncLegacyProjection();
    }

    method SetZoneVisible(zone: Zone, visible: bool)
      modifies this, dock
      ensures State() == Step(old(State()), SetVisible(zone, visible))
    {
      hide Synced;
      var s := dock.Get(zone);
      dock.Set(zone, s.(visible := visible));
      SyncLegacyProjection();
    }
  }
}
