/** The dock layout: eight panels over three zones, repaired from arbitrary input. */
module Dock {
  import opened Sequences

  datatype Panel = Connections | RemoteFiles | Sessions | History | Send | EmbeddedShell | Transfers | Relay

  datatype Zone = Left | Right | Bottom

  datatype Stack = Stack(panels: seq<Panel>, active: Option<Panel>, visible: bool, extent: nat)

  datatype Layout = Layout(left: Stack, right: Stack, bottom: Stack) {
    function At(zone: Zone): Stack {
      match zone
      case Left => left
      case Right => right
      case Bottom => bottom
    }

    function With(zone: Zone, stack: Stack): Layout {
      match zone
      case Left => this.(left := stack)
      case Right => this.(right := stack)
      case Bottom => this.(bottom := stack)
    }

    /** Every panel entry, zone by zone. */
    function Panels(): seq<Panel> {
      left.panels + right.panels + bottom.panels
    }
  }

  const ALL: seq<Panel> := [Connections, RemoteFiles, Sessions, History, Send, EmbeddedShell, Transfers, Relay]

  function DefaultZone(panel: Panel): Zone {
    match panel
    case Connections | RemoteFiles => Left
    case Sessions | History => Right
    case Send | EmbeddedShell | Transfers | Relay => Bottom
  }

  function MinExtent(zone: Zone): nat {
    match zone case Left => 200 case Right => 220 case Bottom => 120
  }

  function MaxExtent(zone: Zone): nat {
    match zone case Left => 600 case Right => 600 case Bottom => 520
  }

  function ClampExtent(extent: nat, zone: Zone): nat {
    Min(Max(extent, MinExtent(zone)), MaxExtent(zone))
  }

  // ---- first occurrences -------------------------------------------------

  /** The entries not seen before, first occurrences only. */
  function Firsts(panels: seq<Panel>, seen: seq<Panel>): (kept: seq<Panel>)
    ensures forall p :: p in kept <==> p in panels && p !in seen
  {
    if panels == [] then []
    else if panels[0] in seen then Firsts(panels[1..], seen)
    else [panels[0]] + Firsts(panels[1..], seen + [panels[0]])
  }

  predicate NoDuplicates(panels: seq<Panel>) {
    panels == [] || (panels[0] !in panels[1..] && NoDuplicates(panels[1..]))
  }

  lemma {:induction false} NoDuplicatesMeansDistinct(panels: seq<Panel>)
    ensures NoDuplicates(panels) <==> forall i, j :: 0 <= i < j < |panels| ==> panels[i] != panels[j]
  {
    if panels != [] {
      var rest := panels[1..];
      NoDuplicatesMeansDistinct(rest);
      if forall i, j :: 0 <= i < j < |panels| ==> panels[i] != panels[j] {
        forall i, j | 0 <= i < j < |rest| ensures rest[i] != rest[j] {
          assert panels[i + 1] != panels[j + 1];
        }
        assert panels[0] !in rest by {
          forall j | 0 <= j < |rest| ensures rest[j] != panels[0] { assert panels[0] != panels[j + 1]; }
        }
      }
    }
  }

  lemma {:induction false} FirstsHaveNoDuplicates(panels: seq<Panel>, seen: seq<Panel>)
    ensures NoDuplicates(Firsts(panels, seen))
  {
    if panels != [] {
      FirstsHaveNoDuplicates(panels[1..], if panels[0] in seen then seen else seen + [panels[0]]);
    }
  }

  lemma {:induction false} FirstsOfDistinct(panels: seq<Panel>, seen: seq<Panel>)
    requires NoDuplicates(panels) && forall p :: p in panels ==> p !in seen
    ensures Firsts(panels, seen) == panels
  {
    if panels != [] {
      FirstsOfDistinct(panels[1..], seen + [panels[0]]);
    }
  }

  /** Keeping first occurrences zone by zone is keeping them in the whole list. */
  lemma {:induction false} FirstsSplit(a: seq<Panel>, b: seq<Panel>, seen: seq<Panel>)
    ensures Firsts(a + b, seen) == Firsts(a, seen) + Firsts(b, seen + Firsts(a, seen))
  {
    if a == [] {
      assert a + b == b && seen + [] == seen;
    } else {
      assert (a + b)[1..] == a[1..] + b;
      if a[0] in seen {
        FirstsSplit(a[1..], b, seen);
      } else {
        FirstsSplit(a[1..], b, seen + [a[0]]);
        Assoc(seen, [a[0]], Firsts(a[1..], seen + [a[0]]));
      }
    }
  }

  /** The first position of a panel. */
  function IndexOf(panels: seq<Panel>, p: Panel): (i: nat)
    requires p in panels
    ensures i < |panels| && panels[i] == p && p !in panels[..i]
  {
    if panels[0] == p then 0 else 1 + IndexOf(panels[1..], p)
  }

  /** First occurrences keep their order. */
  lemma {:induction false} FirstsKeepOrder(panels: seq<Panel>, seen: seq<Panel>, p: Panel, q: Panel)
    requires p in Firsts(panels, seen) && q in Firsts(panels, seen)
    ensures IndexOf(Firsts(panels, seen), p) < IndexOf(Firsts(panels, seen), q)
            <==> IndexOf(panels, p) < IndexOf(panels, q)
  {
    hide IndexOf, Firsts;
    FirstsCons(panels, seen);
    if panels != [] {
      var x, rest := panels[0], panels[1..];
      assert panels == [x] + rest;
      if x in seen {
        FirstsKeepOrder(rest, seen, p, q);
        OrderOfTail(x, rest, p, q);
      } else {
        var kept := Firsts(rest, seen + [x]);
        if p != x && q != x {
          FirstsKeepOrder(rest, seen + [x], p, q);
          OrderOfTail(x, rest, p, q);
          OrderOfTail(x, kept, p, q);
        } else {
          HeadIsFirst(x, rest, p, q);
          HeadIsFirst(x, kept, p, q);
        }
      }
    }
  }

  lemma OrderOfTail(x: Panel, rest: seq<Panel>, p: Panel, q: Panel)
    requires p in rest && q in rest && p != x && q != x
    ensures IndexOf([x] + rest, p) < IndexOf([x] + rest, q) <==> IndexOf(rest, p) < IndexOf(rest, q)
  {
    hide IndexOf;
    IndexCons(x, rest, p);
    IndexCons(x, rest, q);
  }

  lemma HeadIsFirst(x: Panel, rest: seq<Panel>, p: Panel, q: Panel)
    requires p in [x] + rest && q in [x] + rest && (p == x || q == x)
    ensures IndexOf([x] + rest, p) < IndexOf([x] + rest, q) <==> q != x
  {
    hide IndexOf;
    IndexCons(x, rest, p);
    IndexCons(x, rest, q);
  }

  lemma FirstsCons(panels: seq<Panel>, seen: seq<Panel>)
    ensures panels == [] ==> Firsts(panels, seen) == []
    ensures panels != [] && panels[0] in seen ==> Firsts(panels, seen) == Firsts(panels[1..], seen)
    ensures panels != [] && panels[0] !in seen ==>
              Firsts(panels, seen) == [panels[0]] + Firsts(panels[1..], seen + [panels[0]])
  {
  }

  lemma IndexCons(x: Panel, rest: seq<Panel>, p: Panel)
    requires p == x || p in rest
    ensures IndexOf([x] + rest, p) == if p == x then 0 else 1 + IndexOf(rest, p)
  {
    assert ([x] + rest)[1..] == rest;
  }

  // ---- normalization -----------------------------------------------------

  /** The panels whose default zone is `zone` and that nothing mentions, in list order. */
  function Missing(all: seq<Panel>, zone: Zone, seen: seq<Panel>): (panels: seq<Panel>)
    ensures forall p :: p in panels <==> p in all && DefaultZone(p) == zone && p !in seen
  {
    if all == [] then []
    else (if DefaultZone(all[0]) == zone && all[0] !in seen then [all[0]] else []) + Missing(all[1..], zone, seen)
  }

  /** A stack's own repair: no repeats, an active panel it holds, an extent in range. */
  function NormalizedFor(s: Stack, zone: Zone): Stack {
    var panels := Firsts(s.panels, []);
    var kept := if s.active.Some? && s.active.value in panels then s.active else None;
    Stack(panels,
          if kept.None? && panels != [] then Some(panels[0]) else kept,
          s.visible, ClampExtent(s.extent, zone))
  }

  /** The panels of a zone after removing repeats across zones, without additions. */
  function KeptIn(l: Layout, zone: Zone): seq<Panel> {
    var left := Firsts(l.left.panels, []);
    var right := Firsts(l.right.panels, left);
    match zone
    case Left => left
    case Right => right
    case Bottom => Firsts(l.bottom.panels, left + right)
  }

  function Seen(l: Layout): seq<Panel> {
    KeptIn(l, Left) + KeptIn(l, Right) + KeptIn(l, Bottom)
  }

  function PanelsIn(l: Layout, zone: Zone): seq<Panel> {
    KeptIn(l, zone) + Missing(ALL, zone, Seen(l))
  }

  function Normalize(l: Layout): Layout {
    Layout(NormalizedFor(l.left.(panels := PanelsIn(l, Left)), Left),
           NormalizedFor(l.right.(panels := PanelsIn(l, Right)), Right),
           NormalizedFor(l.bottom.(panels := PanelsIn(l, Bottom)), Bottom))
  }

  /** Every panel is in exactly one zone, exactly once. */
  ghost predicate Partition(l: Layout) {
    NoDuplicates(l.Panels()) && forall p: Panel :: p in l.Panels()
  }

  predicate StackOk(s: Stack, zone: Zone) {
    && (s.active.None? <==> s.panels == [])
    && (s.active.Some? ==> s.active.value in s.panels)
    && MinExtent(zone) <= s.extent <= MaxExtent(zone)
  }

  ghost predicate Normal(l: Layout) {
    Partition(l) && StackOk(l.left, Left) && StackOk(l.right, Right) && StackOk(l.bottom, Bottom)
  }

  predicate Disjoint(a: seq<Panel>, b: seq<Panel>) {
    forall p :: p in a ==> p !in b
  }

  lemma {:induction false} DistinctConcat(a: seq<Panel>, b: seq<Panel>)
    ensures NoDuplicates(a + b) <==> NoDuplicates(a) && NoDuplicates(b) && Disjoint(a, b)
  {
    if a == [] {
      assert a + b == b;
    } else {
      assert (a + b)[1..] == a[1..] + b;
      DistinctConcat(a[1..], b);
      assert Disjoint(a, b) <==> a[0] !in b && Disjoint(a[1..], b);
    }
  }

  lemma {:induction false} MissingHasNoDuplicates(all: seq<Panel>, zone: Zone, seen: seq<Panel>)
    requires NoDuplicates(all)
    ensures NoDuplicates(Missing(all, zone, seen))
  {
    if all != [] {
      MissingHasNoDuplicates(all[1..], zone, seen);
      var rest := Missing(all[1..], zone, seen);
      assert ([all[0]] + rest)[1..] == rest && [] + rest == rest;
    }
  }

  lemma AllPanelsAreDistinct()
    ensures NoDuplicates(ALL) && forall p: Panel :: p in ALL
  {
    NoDuplicatesMeansDistinct(ALL);
    hide NoDuplicates;
    forall p: Panel ensures p in ALL {
      match p {
        case Connections => assert ALL[0] == p;
        case RemoteFiles => assert ALL[1] == p;
        case Sessions => assert ALL[2] == p;
        case History => assert ALL[3] == p;
        case Send => assert ALL[4] == p;
        case EmbeddedShell => assert ALL[5] == p;
        case Transfers => assert ALL[6] == p;
        case Relay => assert ALL[7] == p;
      }
    }
  }

  lemma KeptInIsDistinct(l: Layout, zone: Zone)
    ensures NoDuplicates(KeptIn(l, zone))
  {
    hide NoDuplicates, Firsts;
    var left := Firsts(l.left.panels, []);
    var right := Firsts(l.right.panels, left);
    FirstsHaveNoDuplicates(l.left.panels, []);
    FirstsHaveNoDuplicates(l.right.panels, left);
    FirstsHaveNoDuplicates(l.bottom.panels, left + right);
  }

  lemma PanelsInAreDistinct(l: Layout, zone: Zone)
    ensures NoDuplicates(PanelsIn(l, zone))
  {
    hide NoDuplicates, KeptIn, Missing;
    KeptInIsDistinct(l, zone);
    AllPanelsAreDistinct();
    MissingHasNoDuplicates(ALL, zone, Seen(l));
    DistinctConcat(KeptIn(l, zone), Missing(ALL, zone, Seen(l)));
  }

  /** Normalization does to each zone exactly what `PanelsIn` says. */
  lemma NormalizedPanels(l: Layout, zone: Zone)
    ensures Normalize(l).At(zone).panels == PanelsIn(l, zone)
  {
    PanelsInAreDistinct(l, zone);
    FirstsOfDistinct(PanelsIn(l, zone), []);
  }

  /** Each zone's entries: those kept from the input or defaulted here. */
  lemma ZoneMembership(l: Layout, p: Panel)
    ensures p in PanelsIn(l, Left) <==> p in l.left.panels || (p !in l.Panels() && DefaultZone(p) == Left)
    ensures p in PanelsIn(l, Right) <==>
              (p in l.right.panels && p !in l.left.panels) || (p !in l.Panels() && DefaultZone(p) == Right)
    ensures p in PanelsIn(l, Bottom) <==>
              (p in l.bottom.panels && p !in l.left.panels && p !in l.right.panels)
              || (p !in l.Panels() && DefaultZone(p) == Bottom)
  {
    hide Firsts, Missing, NoDuplicates;
    AllPanelsAreDistinct();
    assert p in Seen(l) <==> p in l.Panels();
  }

  lemma NormalizePartitions(l: Layout)
    ensures Partition(Normalize(l))
  {
    hide PanelsIn, Normalize;
    var n := Normalize(l);
    NormalizedPanels(l, Left);
    NormalizedPanels(l, Right);
    NormalizedPanels(l, Bottom);
    PanelsInAreDistinct(l, Left);
    PanelsInAreDistinct(l, Right);
    PanelsInAreDistinct(l, Bottom);
    forall p: Panel
      ensures p in n.Panels()
      ensures !(p in n.left.panels && p in n.right.panels)
      ensures !(p in n.left.panels + n.right.panels && p in n.bottom.panels)
    {
      ZoneMembership(l, p);
    }
    DistinctConcat(n.left.panels, n.right.panels);
    DistinctConcat(n.left.panels + n.right.panels, n.bottom.panels);
  }

  /** For any input whatever, normalization yields a partition with valid actives and extents. */
  lemma NormalizeIsNormal(l: Layout)
    ensures Normal(Normalize(l))
  {
    hide Partition, PanelsIn, NormalizedFor;
    NormalizePartitions(l);
    NormalizedForIsOk(l.left.(panels := PanelsIn(l, Left)), Left);
    NormalizedForIsOk(l.right.(panels := PanelsIn(l, Right)), Right);
    NormalizedForIsOk(l.bottom.(panels := PanelsIn(l, Bottom)), Bottom);
  }

  lemma NormalizedForIsOk(s: Stack, zone: Zone)
    ensures StackOk(NormalizedFor(s, zone), zone)
  {
  }

  lemma SomeMember(panels: seq<Panel>)
    requires panels != []
    ensures exists p :: p in panels
  {
    assert panels[0] in panels;
  }

  lemma PartitionStays(l: Layout, zone: Zone)
    requires Partition(l)
    ensures PanelsIn(l, zone) == l.At(zone).panels && NoDuplicates(l.At(zone).panels)
  {
    hide NoDuplicates, Firsts, Missing;
    DistinctConcat(l.left.panels, l.right.panels);
    DistinctConcat(l.left.panels + l.right.panels, l.bottom.panels);
    FirstsOfDistinct(l.left.panels, []);
    FirstsOfDistinct(l.right.panels, l.left.panels);
    FirstsOfDistinct(l.bottom.panels, l.left.panels + l.right.panels);
    assert Seen(l) == l.Panels();
    var none := Missing(ALL, zone, Seen(l));
    if none != [] {
      SomeMember(none);
    }
    assert l.At(zone).panels + [] == l.At(zone).panels;
  }

  /** Normalization changes nothing exactly on the layouts it produces, so it is idempotent. */
  lemma NormalizeFixesIff(l: Layout)
    ensures Normalize(l) == l <==> Normal(l)
    ensures Normalize(Normalize(l)) == Normalize(l)
  {
    NormalizeIsNormal(l);
    NormalStays(Normalize(l));
    if Normal(l) { NormalStays(l); }
  }

  lemma NormalStays(l: Layout)
    requires Normal(l)
    ensures Normalize(l) == l
  {
    hide PanelsIn;
    PartitionStays(l, Left);
    PartitionStays(l, Right);
    PartitionStays(l, Bottom);
    FirstsOfDistinct(l.left.panels, []);
    FirstsOfDistinct(l.right.panels, []);
    FirstsOfDistinct(l.bottom.panels, []);
  }

  function ZoneFor(l: Layout, p: Panel): Option<Zone> {
    if p in l.left.panels then Some(Left)
    else if p in l.right.panels then Some(Right)
    else if p in l.bottom.panels then Some(Bottom)
    else None
  }

  lemma ZoneAfterNormalize(l: Layout, p: Panel)
    ensures ZoneFor(Normalize(l), p) == Some(if p in l.Panels() then ZoneFor(l, p).value else DefaultZone(p))
  {
    hide Normalize, PanelsIn, NoDuplicates;
    NormalizedPanels(l, Left);
    NormalizedPanels(l, Right);
    NormalizedPanels(l, Bottom);
    ZoneMembership(l, p);
  }

  /** Where a panel ends up: the zone that mentioned it first, or its default zone.
      What a zone keeps is the first occurrences of the whole list, in order. */
  lemma NormalizeKeepsFirstOccurrence(l: Layout, p: Panel)
    ensures ZoneFor(Normalize(l), p) == Some(if p in l.Panels() then ZoneFor(l, p).value else DefaultZone(p))
    ensures Seen(l) == Firsts(l.Panels(), [])
    ensures forall zone :: KeptIn(l, zone) <= Normalize(l).At(zone).panels
  {
    hide Normalize, Firsts, Missing, NoDuplicates;
    forall zone ensures KeptIn(l, zone) <= Normalize(l).At(zone).panels { NormalizedPanels(l, zone); }
    ZoneAfterNormalize(l, p);
    FirstsSplit(l.left.panels, l.right.panels, []);
    FirstsSplit(l.left.panels + l.right.panels, l.bottom.panels, []);
    assert [] + KeptIn(l, Left) == KeptIn(l, Left);
    assert [] + (KeptIn(l, Left) + KeptIn(l, Right)) == KeptIn(l, Left) + KeptIn(l, Right);
  }

  /** What normalization leaves: visibilities; sizes but for the range; an active panel
      its zone holds. A zone without one takes its first panel. */
  lemma NormalizeKeepsTheRest(l: Layout, zone: Zone)
    ensures var s, n := l.At(zone), Normalize(l).At(zone);
            && n.visible == s.visible
            && n.extent == Min(Max(s.extent, MinExtent(zone)), MaxExtent(zone))
            && n.active == (if s.active.Some? && s.active.value in n.panels then s.active
                            else if n.panels == [] then None else Some(n.panels[0]))
  {
    hide PanelsIn, Firsts;
  }

  /** A layout that mentions no panel gets the default one. */
  lemma NothingMentionedGivesDefaults(l: Layout)
    requires l.Panels() == []
    ensures var n := Normalize(l);
            && n.left.panels == [Connections, RemoteFiles]
            && n.right.panels == [Sessions, History]
            && n.bottom.panels == [Send, EmbeddedShell, Transfers, Relay]
  {
    hide Normalize, NoDuplicates, PanelsIn, Missing, Seen;
    NormalizedPanels(l, Left);
    NormalizedPanels(l, Right);
    NormalizedPanels(l, Bottom);
    NothingKept(l);
    DefaultsOf(Left);
    DefaultsOf(Right);
    DefaultsOf(Bottom);
  }

  lemma NothingKept(l: Layout)
    requires l.Panels() == []
    ensures Seen(l) == [] && forall zone :: PanelsIn(l, zone) == Missing(ALL, zone, [])
  {
    hide Missing;
    assert forall zone: Zone :: KeptIn(l, zone) == [];
  }

  lemma DefaultsOf(zone: Zone)
    ensures Missing(ALL, zone, []) == match zone
                                      case Left => [Connections, RemoteFiles]
                                      case Right => [Sessions, History]
                                      case Bottom => [Send, EmbeddedShell, Transfers, Relay]
  {
    hide Missing;
    var lefts, rights := [Connections, RemoteFiles], [Sessions, History];
    var bottoms := [Send, EmbeddedShell, Transfers, Relay];
    assert ALL == lefts + rights + bottoms;
    MissingAppend(lefts + rights, bottoms, zone);
    MissingAppend(lefts, rights, zone);
    AllOrNone(lefts, Left, zone);
    AllOrNone(rights, Right, zone);
    AllOrNone(bottoms, Bottom, zone);
  }

  lemma {:induction false} MissingAppend(a: seq<Panel>, b: seq<Panel>, zone: Zone)
    ensures Missing(a + b, zone, []) == Missing(a, zone, []) + Missing(b, zone, [])
  {
    if a == [] {
      assert a + b == b;
    } else {
      assert (a + b)[1..] == a[1..] + b;
      MissingAppend(a[1..], b, zone);
    }
  }

  lemma {:induction false} AllOrNone(panels: seq<Panel>, home: Zone, zone: Zone)
    requires forall p :: p in panels ==> DefaultZone(p) == home
    ensures Missing(panels, zone, []) == if zone == home then panels else []
  {
    if panels != [] {
      AllOrNone(panels[1..], home, zone);
    }
  }

  // ---- moving a panel ----------------------------------------------------

  function Without(panels: seq<Panel>, p: Panel): (rest: seq<Panel>)
    ensures forall q :: q in rest <==> q in panels && q != p
  {
    if panels == [] then []
    else if panels[0] == p then Without(panels[1..], p)
    else [panels[0]] + Without(panels[1..], p)
  }

  function Dropped(s: Stack, p: Panel): Stack {
    s.(panels := Without(s.panels, p), active := if s.active == Some(p) then None else s.active)
  }

  function DroppedAll(l: Layout, p: Panel): Layout {
    Layout(Dropped(l.left, p), Dropped(l.right, p), Dropped(l.bottom, p))
  }

  function Inserted(panels: seq<Panel>, i: nat, p: Panel): seq<Panel> {
    var at := Min(i, |panels|);
    panels[..at] + [p] + panels[at..]
  }

  /** The layout between the two normalizations of a move. */
  function Moved(n: Layout, p: Panel, target: Zone, i: nat): Layout {
    var source := ZoneFor(n, p);
    var wasActive := source.Some? && n.At(source.value).active == Some(p);
    var d := DroppedAll(n, p);
    var t := d.At(target);
    d.With(target, Stack(Inserted(t.panels, i, p),
                         if wasActive || source != Some(target) || !n.At(target).visible then Some(p) else t.active,
                         true, t.extent))
  }

  function MovePanel(l: Layout, p: Panel, target: Zone, i: nat): Layout {
    Normalize(Moved(Normalize(l), p, target, i))
  }

  lemma {:induction false} WithoutAbsent(panels: seq<Panel>, p: Panel)
    requires p !in panels
    ensures Without(panels, p) == panels
  {
    if panels != [] {
      WithoutAbsent(panels[1..], p);
    }
  }

  lemma {:induction false} WithoutKeepsDistinct(panels: seq<Panel>, p: Panel)
    requires NoDuplicates(panels)
    ensures NoDuplicates(Without(panels, p))
  {
    if panels != [] {
      WithoutKeepsDistinct(panels[1..], p);
    }
  }

  lemma {:induction false} WithoutConcat(a: seq<Panel>, b: seq<Panel>, p: Panel)
    ensures Without(a + b, p) == Without(a, p) + Without(b, p)
  {
    if a == [] {
      assert a + b == b;
    } else {
      assert (a + b)[1..] == a[1..] + b;
      WithoutConcat(a[1..], b, p);
    }
  }

  lemma {:induction false} IndexAfter(a: seq<Panel>, p: Panel, b: seq<Panel>)
    requires p !in a
    ensures IndexOf(a + [p] + b, p) == |a|
  {
    var all := a + [p] + b;
    if a != [] {
      assert all[1..] == a[1..] + [p] + b;
      IndexAfter(a[1..], p, b);
    }
  }

  /** An inserted panel is where it was asked for; taking it out again undoes it. */
  lemma InsertedMeaning(panels: seq<Panel>, i: nat, p: Panel)
    requires p !in panels
    ensures var at, ins := Min(i, |panels|), Inserted(panels, i, p);
            && IndexOf(ins, p) == at && Without(ins, p) == panels
            && (forall q :: q in ins <==> q == p || q in panels)
  {
    var at := Min(i, |panels|);
    var a, b := panels[..at], panels[at..];
    assert a + b == panels;
    IndexAfter(a, p, b);
    WithoutConcat(a + [p], b, p);
    WithoutConcat(a, [p], p);
    WithoutAbsent(a, p);
    WithoutAbsent(b, p);
    assert Without([p], p) == [];
    assert a + [] == a;
  }

  lemma InsertedDistinct(panels: seq<Panel>, i: nat, p: Panel)
    requires p !in panels && NoDuplicates(panels)
    ensures NoDuplicates(Inserted(panels, i, p))
  {
    var at := Min(i, |panels|);
    var a, b := panels[..at], panels[at..];
    assert a + b == panels;
    assert p !in a && p !in b;
    assert NoDuplicates([p]);
    hide NoDuplicates;
    DistinctConcat(a, b);
    DistinctConcat(a, [p]);
    DistinctConcat(a + [p], b);
  }

  /** Taking a panel out of a list without repeats and putting it back at its index. */
  lemma {:induction false} ReinsertAtIndex(panels: seq<Panel>, p: Panel)
    requires p in panels && NoDuplicates(panels)
    ensures Inserted(Without(panels, p), IndexOf(panels, p), p) == panels
  {
    var at := IndexOf(panels, p);
    var a, b := panels[..at], panels[at + 1..];
    assert panels == a + [p] + b;
    DistinctConcat(a + [p], b);
    DistinctConcat(a, [p]);
    WithoutConcat(a + [p], b, p);
    WithoutConcat(a, [p], p);
    WithoutAbsent(a, p);
    WithoutAbsent(b, p);
    assert Without([p], p) == [] && a + [] == a;
    assert (a + b)[..at] == a && (a + b)[at..] == b;
  }

  lemma ZonesOfPartition(l: Layout)
    ensures NoDuplicates(l.Panels()) <==>
              && NoDuplicates(l.left.panels) && NoDuplicates(l.right.panels) && NoDuplicates(l.bottom.panels)
              && Disjoint(l.left.panels, l.right.panels) && Disjoint(l.left.panels, l.bottom.panels)
              && Disjoint(l.right.panels, l.bottom.panels)
  {
    DistinctConcat(l.left.panels, l.right.panels);
    DistinctConcat(l.left.panels + l.right.panels, l.bottom.panels);
  }

  /** The panel lists after a move of a normal layout. */
  lemma MovedPanels(n: Layout, p: Panel, target: Zone, i: nat, zone: Zone)
    ensures Moved(n, p, target, i).At(zone).panels
            == if zone == target then Inserted(Without(n.At(zone).panels, p), i, p) else Without(n.At(zone).panels, p)
  {
  }

  lemma MovedPartitions(n: Layout, p: Panel, target: Zone, i: nat)
    requires Partition(n)
    ensures Partition(Moved(n, p, target, i))
  {
    hide Moved, Inserted, Without, NoDuplicates;
    var m := Moved(n, p, target, i);
    ZonesOfPartition(n);
    MovedPanels(n, p, target, i, Left);
    MovedPanels(n, p, target, i, Right);
    MovedPanels(n, p, target, i, Bottom);
    WithoutKeepsDistinct(n.left.panels, p);
    WithoutKeepsDistinct(n.right.panels, p);
    WithoutKeepsDistinct(n.bottom.panels, p);
    InsertedDistinct(Without(n.At(target).panels, p), i, p);
    InsertedMeaning(Without(n.At(target).panels, p), i, p);
    forall q: Panel ensures q in m.Panels() {
      assert q in n.Panels();
    }
    ZonesOfPartition(m);
  }

  /** After a move, zone by zone: normalization only repairs actives and extents. */
  lemma MoveResult(l: Layout, p: Panel, target: Zone, i: nat, zone: Zone)
    ensures var n, m := Normalize(l), MovePanel(l, p, target, i);
            && Partition(n) && Normal(m)
            && var rest := Without(n.At(zone).panels, p);
               m.At(zone) == NormalizedFor(Moved(n, p, target, i).At(zone), zone)
               && m.At(zone).panels == if zone == target then Inserted(rest, i, p) else rest
  {
    hide Normalize, Moved, NormalizedFor, PanelsIn, StackOk;
    var n := Normalize(l);
    NormalizeIsNormal(l);
    var d := Moved(n, p, target, i);
    MovedPartitions(n, p, target, i);
    NormalizeIsNormal(d);
    NormalizedPanels(d, zone);
    NormalizedStack(d, zone);
    PartitionStays(d, zone);
    MovedPanels(n, p, target, i, zone);
  }

  lemma NormalizedStack(l: Layout, zone: Zone)
    ensures Normalize(l).At(zone) == NormalizedFor(l.At(zone).(panels := PanelsIn(l, zone)), zone)
  {
  }

  /** A move leaves a normal layout in which the panel is in the target zone at the
      requested index, or last, and in no other; the order of all others is kept. */
  lemma MovePanelPlaces(l: Layout, p: Panel, target: Zone, i: nat, zone: Zone)
    ensures var n, m := Normalize(l), MovePanel(l, p, target, i);
            && Normal(m)
            && (p in m.At(zone).panels <==> zone == target)
            && p in m.At(target).panels
            && IndexOf(m.At(target).panels, p) == Min(i, |Without(n.At(target).panels, p)|)
            && Without(m.At(zone).panels, p) == Without(n.At(zone).panels, p)
  {
    hide Normalize, MovePanel, Normal, Partition, NormalizedFor, Moved, Without, Inserted, IndexOf;
    var n := Normalize(l);
    MoveResult(l, p, target, i, zone);
    MoveResult(l, p, target, i, target);
    InsertedMeaning(Without(n.At(target).panels, p), i, p);
    WithoutAbsent(Without(n.At(zone).panels, p), p);
  }

  /** The moved panel becomes active unless it was reordered, inactive, in a visible
      zone; then that zone's active panel stays. The zone is shown in any case. */
  lemma MovePanelActivates(l: Layout, p: Panel, target: Zone, i: nat)
    ensures var n, m := Normalize(l).At(target), MovePanel(l, p, target, i).At(target);
            && m.visible
            && m.active == if p in n.panels && n.visible && n.active != Some(p) then n.active else Some(p)
  {
    hide Normalize, MovePanel, Without, Inserted;
    var n := Normalize(l);
    NormalizeIsNormal(l);
    ZonesOfPartition(n);
    MoveResult(l, p, target, i, target);
    InsertedMeaning(Without(n.At(target).panels, p), i, p);
    assert ZoneFor(n, p) == Some(target) <==> p in n.At(target).panels;
  }

  /** A move changes no size, shows no other zone, and changes another zone's active
      panel only by taking it away: then that zone's first panel follows. */
  lemma MoveLeavesTheRest(l: Layout, p: Panel, target: Zone, i: nat, zone: Zone)
    ensures var n, m := Normalize(l).At(zone), MovePanel(l, p, target, i).At(zone);
            && m.extent == n.extent
            && (zone != target ==> m.visible == n.visible)
            && (zone != target ==>
                  m.active == if n.active != Some(p) then n.active
                              else if m.panels == [] then None else Some(m.panels[0]))
  {
    hide Normalize, MovePanel, Without, Inserted, Partition;
    NormalizeIsNormal(l);
    MoveResult(l, p, target, i, zone);
    if zone != target {
    }
  }

  /** Moving a panel and moving it back to its zone and index restores all panel orders. */
  lemma MovingBackRestores(l: Layout, p: Panel, target: Zone, i: nat, home: Zone, zone: Zone)
    requires Normal(l) && p in l.At(home).panels
    ensures MovePanel(MovePanel(l, p, target, i), p, home, IndexOf(l.At(home).panels, p)).At(zone).panels
            == l.At(zone).panels
  {
    hide Normalize, MovePanel, Normal, NormalizedFor, Moved, Without, Inserted, IndexOf, NoDuplicates, Partition;
    var at := IndexOf(l.At(home).panels, p);
    var m := MovePanel(l, p, target, i);
    HomeIsUnique(l, p, home, zone);
    NormalStays(l);
    MovePanelPlaces(l, p, target, i, zone);
    NormalStays(m);
    MoveResult(m, p, home, at, zone);
    if zone == home {
      ReinsertAtIndex(l.At(home).panels, p);
    } else {
      WithoutAbsent(l.At(zone).panels, p);
    }
  }

  lemma HomeIsUnique(l: Layout, p: Panel, home: Zone, zone: Zone)
    requires Normal(l) && p in l.At(home).panels
    ensures NoDuplicates(l.At(home).panels)
    ensures zone != home ==> p !in l.At(zone).panels
  {
    ZonesOfPartition(l);
  }
}
