/**
 * The narrative diagram shown on a story's intro screen.  A narrative tag
 * selects a layout: a linear flow of the sections' roles joined by arrows,
 * a hub-and-spoke picture around the "core" role, or nothing.  The layout is
 * modelled as an abstract value; drawing it with borders is left to the
 * terminal layout library.
 */
module Intro {
  import opened Wrappers
  import opened DiffView

  /** The narrative kinds the intro screen knows how to draw. */
  datatype Narrative = CauseEffect | EntryImplementation | BeforeAfter | RuleInstances | CorePeriphery

  /** The tag a story uses for each narrative kind. */
  function NarrativeTag(n: Narrative): string {
    match n
    case CauseEffect => "cause-effect"
    case EntryImplementation => "entry-implementation"
    case BeforeAfter => "before-after"
    case RuleInstances => "rule-instances"
    case CorePeriphery => "core-periphery"
  }

  /** The narrative kind a tag names; any other tag names none. */
  function ParseNarrative(tag: string): (r: Option<Narrative>)
    ensures r.Some? ==> NarrativeTag(r.value) == tag
    ensures r.None? <==> forall n: Narrative :: NarrativeTag(n) != tag
  {
    if tag == "cause-effect" then Some(CauseEffect)
    else if tag == "entry-implementation" then Some(EntryImplementation)
    else if tag == "before-after" then Some(BeforeAfter)
    else if tag == "rule-instances" then Some(RuleInstances)
    else if tag == "core-periphery" then Some(CorePeriphery)
    else None
  }

  /** Tags and narrative kinds correspond one to one. */
  lemma NarrativeTagRoundTrip(n: Narrative, tag: string)
    ensures ParseNarrative(NarrativeTag(n)) == Some(n)
    ensures ParseNarrative(tag).Some? ==> NarrativeTag(ParseNarrative(tag).value) == tag
  {
  }

  /** The role at the hub of a hub-and-spoke diagram. */
  const CoreRole: string := "core"
  /** The connector between two nodes of a linear flow: " → ". */
  const Arrow: string := " \U{2192} "
  /** The prefix of each role in the right-only layout: "── ". */
  const RightSpoke: string := "\U{2500}\U{2500} "
  /** The horizontal connector of the cardinal layout: " ──". */
  const HSpoke: string := " \U{2500}\U{2500}"

  /** A piece of a row: a bordered node box or plain text. */
  datatype Part = Node(name: string) | Text(text: string)

  /**
   * A row of the cardinal layout.  A top section is a centred label above a
   * vertical connector, a bottom section a connector above a label.
   */
  datatype Row = TopSection(role: string) | MiddleRow(parts: seq<Part>) | BottomSection(role: string)

  /** What the diagram shows. */
  datatype Diagram =
    | Empty                        // the empty string
    | Linear(parts: seq<Part>)     // parts joined horizontally
    | CoreOnly                     // the core node alone
    | RightOnly(spokes: seq<string>) // the core node beside a column of spokes
    | Cardinal(rows: seq<Row>)     // rows joined vertically

  predicate Distinct(s: seq<string>) {
    forall i, j :: 0 <= i < j < |s| ==> s[i] != s[j]
  }

  // ---------------------------------------------------------------------------
  // Roles

  /** The distinct non-empty roles of `sections`, in the order they are first seen. */
  function RolesOf(sections: seq<Section>): seq<string> {
    if sections == [] then []
    else
      var prev := RolesOf(sections[..|sections| - 1]);
      var r := sections[|sections| - 1].role;
      if r != "" && r !in prev then prev + [r] else prev
  }

  /** Whether some section plays role `x`. */
  predicate HasRole(sections: seq<Section>, x: string) {
    exists k :: 0 <= k < |sections| && sections[k].role == x
  }

  /** The roles are distinct and none is empty. */
  lemma {:induction false} RolesDistinct(sections: seq<Section>)
    ensures Distinct(RolesOf(sections))
    ensures forall i :: 0 <= i < |RolesOf(sections)| ==> RolesOf(sections)[i] != ""
  {
    if sections != [] {
      RolesDistinct(sections[..|sections| - 1]);
    }
  }

  /** A role is listed exactly when it is non-empty and some section plays it. */
  lemma {:induction false} RolesMembership(sections: seq<Section>, x: string)
    ensures x in RolesOf(sections) <==> x != "" && HasRole(sections, x)
  {
    if sections != [] {
      var prefix := sections[..|sections| - 1];
      RolesMembership(prefix, x);
      if HasRole(prefix, x) {
        var k :| 0 <= k < |prefix| && prefix[k].role == x;
        assert sections[k].role == x;
      }
      if HasRole(sections, x) && !HasRole(prefix, x) {
        assert sections[|sections| - 1].role == x;
      }
    }
  }

  /** The index of the first section playing role `x`, or the number of sections if none does. */
  function FirstIndex(sections: seq<Section>, x: string): (k: nat)
    ensures k <= |sections|
    ensures k < |sections| ==> sections[k].role == x
    ensures forall j :: 0 <= j < k ==> sections[j].role != x
  {
    if sections == [] then 0
    else
      var k := FirstIndex(sections[..|sections| - 1], x);
      if k < |sections| - 1 then k
      else if sections[|sections| - 1].role == x then |sections| - 1
      else |sections|
  }

  /** Roles are listed in the order in which their first sections appear. */
  lemma {:induction false} RolesFirstSeenOrder(sections: seq<Section>)
    ensures forall i, j :: 0 <= i < j < |RolesOf(sections)| ==>
      FirstIndex(sections, RolesOf(sections)[i]) < FirstIndex(sections, RolesOf(sections)[j]) < |sections|
  {
    if sections != [] {
      var n := |sections|;
      var prefix := sections[..n - 1];
      var prev := RolesOf(prefix);
      RolesFirstSeenOrder(prefix);
      forall i | 0 <= i < |prev| ensures FirstIndex(sections, prev[i]) == FirstIndex(prefix, prev[i]) < n - 1 {
        FirstSeenInPrefix(prefix, prev[i]);
      }
      var r := sections[n - 1].role;
      if r != "" && r !in prev {
        RolesMembership(prefix, r);
        assert FirstIndex(prefix, r) == n - 1;
      }
    }
  }

  /** Every listed role of a prefix is first seen inside it. */
  lemma FirstSeenInPrefix(prefix: seq<Section>, x: string)
    requires x in RolesOf(prefix)
    ensures FirstIndex(prefix, x) < |prefix|
  {
    RolesMembership(prefix, x);
    var k :| 0 <= k < |prefix| && prefix[k].role == x;
  }

  /** `extractRoles`: the loop that collects each new non-empty role, with a seen map. */
  method ExtractRoles(sections: seq<Section>) returns (roles: seq<string>)
    ensures roles == RolesOf(sections)
  {
    roles := [];
    var seen: map<string, bool> := map[];
    var i := 0;
    while i < |sections|
      invariant 0 <= i <= |sections|
      invariant roles == RolesOf(sections[..i])
      invariant forall r :: (r in seen && seen[r]) <==> r in roles
    {
      var role := sections[i].role;
      var wasSeen := role in seen && seen[role];
      if role != "" && !wasSeen {
        roles := roles + [role];
        seen := seen[role := true];
      }
      assert sections[..i + 1][..i] == sections[..i];
      i := i + 1;
    }
    assert sections[..i] == sections;
  }

  // ---------------------------------------------------------------------------
  // Linear flow

  /** The parts of a linear flow: role nodes, with an arrow between each two. */
  function FlowParts(roles: seq<string>): (parts: seq<Part>)
    requires roles != []
    ensures |parts| == 2 * |roles| - 1
    ensures forall j :: 0 <= j < |roles| ==> parts[2 * j] == Node(roles[j])
    ensures forall j :: 0 <= j < |roles| - 1 ==> parts[2 * j + 1] == Text(Arrow)
  {
    if |roles| == 1 then [Node(roles[0])]
    else FlowParts(roles[..|roles| - 1]) + [Text(Arrow), Node(roles[|roles| - 1])]
  }

  /** The linear flow of `roles`: nothing when there are no roles. */
  function FlowLayout(roles: seq<string>): Diagram {
    if roles == [] then Empty else Linear(FlowParts(roles))
  }

  /** A flow of n distinct roles has n - 1 arrows and shows each role in exactly one node. */
  lemma FlowPartsCounts(roles: seq<string>, x: string)
    requires roles != [] && Distinct(roles)
    ensures multiset(FlowParts(roles))[Text(Arrow)] == |roles| - 1
    ensures multiset(FlowParts(roles))[Node(x)] == if x in roles then 1 else 0
  {
    FlowArrowCount(roles);
    FlowNodeCount(roles, x);
  }

  /** A flow of n roles has n - 1 arrows. */
  lemma {:induction false} FlowArrowCount(roles: seq<string>)
    requires roles != []
    ensures multiset(FlowParts(roles))[Text(Arrow)] == |roles| - 1
  {
    if |roles| > 1 {
      var prefix := roles[..|roles| - 1];
      FlowArrowCount(prefix);
      var tail := [Text(Arrow), Node(roles[|roles| - 1])];
      assert FlowParts(roles) == FlowParts(prefix) + tail;
      assert multiset(FlowParts(roles)) == multiset(FlowParts(prefix)) + multiset(tail);
    }
  }

  /** Each of n distinct roles appears in exactly one node of the flow. */
  lemma {:induction false} FlowNodeCount(roles: seq<string>, x: string)
    requires roles != [] && Distinct(roles)
    ensures multiset(FlowParts(roles))[Node(x)] == if x in roles then 1 else 0
  {
    if |roles| > 1 {
      var prefix, last := roles[..|roles| - 1], roles[|roles| - 1];
      assert Distinct(prefix);
      FlowNodeCount(prefix, x);
      assert roles == prefix + [last];
      assert last !in prefix by {
        forall i | 0 <= i < |prefix| ensures prefix[i] != last {
          assert roles[i] != roles[|roles| - 1];
        }
      }
      assert x in roles <==> x in prefix || x == last;
      var tail := [Text(Arrow), Node(last)];
      assert FlowParts(roles) == FlowParts(prefix) + tail;
      assert multiset(FlowParts(roles)) == multiset(FlowParts(prefix)) + multiset(tail);
    }
  }

  /** `linearFlowDiagram`: appends a node and an arrow per role, then drops the trailing arrow. */
  method LinearFlowDiagram(sections: seq<Section>) returns (d: Diagram)
    ensures d == FlowLayout(RolesOf(sections))
  {
    var roles := ExtractRoles(sections);
    if |roles| == 0 {
      return Empty;
    }
    var parts: seq<Part> := [];
    var i := 0;
    while i < |roles|
      invariant 0 <= i <= |roles|
      invariant i == 0 ==> parts == []
      invariant i > 0 ==> parts == FlowParts(roles[..i]) + [Text(Arrow)]
    {
      if i > 0 {
        assert roles[..i + 1][..i] == roles[..i];
      }
      parts := parts + [Node(roles[i])];
      parts := parts + [Text(Arrow)];
      i := i + 1;
    }
    assert roles[..i] == roles;
    if |parts| > 0 {
      parts := parts[..|parts| - 1];
    }
    d := Linear(parts);
  }

  // ---------------------------------------------------------------------------
  // Hub and spoke

  /** The roles other than the core, in order. */
  function Peripherals(roles: seq<string>): (p: seq<string>)
    ensures |p| <= |roles|
    ensures CoreRole !in p
  {
    if roles == [] then []
    else
      var last := roles[|roles| - 1];
      Peripherals(roles[..|roles| - 1]) + (if last != CoreRole then [last] else [])
  }

  lemma {:induction false} PeripheralsAppend(a: seq<string>, b: seq<string>)
    ensures Peripherals(a + b) == Peripherals(a) + Peripherals(b)
    decreases |b|
  {
    if b == [] {
      assert a + b == a;
    } else {
      assert (a + b)[..|a + b| - 1] == a + b[..|b| - 1];
      PeripheralsAppend(a, b[..|b| - 1]);
    }
  }

  /** Without a core role, every role is peripheral. */
  lemma {:induction false} PeripheralsWithoutCore(roles: seq<string>)
    requires CoreRole !in roles
    ensures Peripherals(roles) == roles
  {
    if roles != [] {
      var prefix, last := roles[..|roles| - 1], roles[|roles| - 1];
      assert CoreRole !in prefix by {
        forall i | 0 <= i < |prefix| ensures prefix[i] != CoreRole {
          assert prefix[i] == roles[i];
        }
      }
      PeripheralsWithoutCore(prefix);
      assert last != CoreRole;
      assert Peripherals(roles) == Peripherals(prefix) + [last];
      assert roles == prefix + [last];
    }
  }

  /** In distinct roles the core at position k appears neither before nor after it. */
  lemma CoreOnlyOnce(roles: seq<string>, k: nat)
    requires Distinct(roles) && k < |roles| && roles[k] == CoreRole
    ensures CoreRole !in roles[..k] && CoreRole !in roles[k + 1..]
  {
    var before, after := roles[..k], roles[k + 1..];
    forall i | 0 <= i < |before| ensures before[i] != CoreRole {
      assert before[i] == roles[i];
    }
    forall i | 0 <= i < |after| ensures after[i] != CoreRole {
      assert after[i] == roles[k + 1 + i];
    }
  }

  /** With the core at position k of distinct roles, the peripherals are the roles with that one element removed. */
  lemma PeripheralsRemoveCore(roles: seq<string>, k: nat)
    requires Distinct(roles) && k < |roles| && roles[k] == CoreRole
    ensures Peripherals(roles) == roles[..k] + roles[k + 1..]
    ensures |Peripherals(roles)| == |roles| - 1
  {
    CoreOnlyOnce(roles, k);
    assert roles == roles[..k] + [CoreRole] + roles[k + 1..];
    PeripheralsAroundCore(roles[..k], roles[k + 1..]);
  }

  /** A single core between core-free roles is the only one dropped. */
  lemma PeripheralsAroundCore(before: seq<string>, after: seq<string>)
    requires CoreRole !in before && CoreRole !in after
    ensures Peripherals(before + [CoreRole] + after) == before + after
  {
    var withCore := before + [CoreRole];
    PeripheralsAppend(withCore, after);
    assert withCore[..|withCore| - 1] == before;
    assert Peripherals(withCore) == Peripherals(before);
    PeripheralsWithoutCore(before);
    PeripheralsWithoutCore(after);
  }

  /** A role is peripheral exactly when it is listed and is not the core. */
  lemma {:induction false} PeripheralsMembership(roles: seq<string>, x: string)
    ensures x in Peripherals(roles) <==> x in roles && x != CoreRole
  {
    if roles != [] {
      var prefix := roles[..|roles| - 1];
      PeripheralsMembership(prefix, x);
      assert roles == prefix + [roles[|roles| - 1]];
    }
  }

  /** The spokes of the right-only layout: each role prefixed by "── ". */
  function Spokes(roles: seq<string>): (spokes: seq<string>)
    ensures |spokes| == |roles|
    ensures forall i :: 0 <= i < |roles| ==> spokes[i] == RightSpoke + roles[i]
  {
    if roles == [] then []
    else Spokes(roles[..|roles| - 1]) + [RightSpoke + roles[|roles| - 1]]
  }

  function RightOnlyLayout(peripherals: seq<string>): Diagram {
    RightOnly(Spokes(peripherals))
  }

  /** `rightOnlyHubAndSpoke`: one spoke line per peripheral role. */
  method RightOnlyHubAndSpoke(peripherals: seq<string>) returns (d: Diagram)
    ensures d == RightOnlyLayout(peripherals)
  {
    var rightParts: seq<string> := [];
    var i := 0;
    while i < |peripherals|
      invariant 0 <= i <= |peripherals|
      invariant rightParts == Spokes(peripherals[..i])
    {
      assert peripherals[..i + 1][..i] == peripherals[..i];
      rightParts := rightParts + [RightSpoke + peripherals[i]];
      i := i + 1;
    }
    assert peripherals[..i] == peripherals;
    d := RightOnly(rightParts);
  }

  /** The role placed at position `i` (right, left, top, bottom), or "" when there is none. */
  function Slot(peripherals: seq<string>, i: nat): string {
    if i < |peripherals| then peripherals[i] else ""
  }

  /** The middle row: the left role and a spoke, the core node, a spoke and the right role. */
  function MiddleParts(left: string, right: string): seq<Part> {
    (if left != "" then [Text(left + HSpoke)] else []) +
    [Node(CoreRole)] +
    (if right != "" then [Text(HSpoke + right)] else [])
  }

  /** The cardinal layout: a top section, the middle row and a bottom section, each when present. */
  function CardinalLayout(peripherals: seq<string>): Diagram {
    var right, left, top, bottom := Slot(peripherals, 0), Slot(peripherals, 1), Slot(peripherals, 2), Slot(peripherals, 3);
    Cardinal(
      (if top != "" then [TopSection(top)] else []) +
      [MiddleRow(MiddleParts(left, right))] +
      (if bottom != "" then [BottomSection(bottom)] else []))
  }

  /** `cardinalHubAndSpoke`: assigns roles to right, left, top and bottom, then stacks the rows. */
  method CardinalHubAndSpoke(peripherals: seq<string>) returns (d: Diagram)
    ensures d == CardinalLayout(peripherals)
  {
    var right, left, top, bottom := "", "", "", "";
    var i := 0;
    while i < |peripherals|
      invariant 0 <= i <= |peripherals|
      invariant right == Slot(peripherals[..i], 0) && left == Slot(peripherals[..i], 1)
      invariant top == Slot(peripherals[..i], 2) && bottom == Slot(peripherals[..i], 3)
    {
      var role := peripherals[i];
      if i == 0 {
        right := role;
      } else if i == 1 {
        left := role;
      } else if i == 2 {
        top := role;
      } else if i == 3 {
        bottom := role;
      }
      i := i + 1;
    }
    assert peripherals[..i] == peripherals;
    var middleParts: seq<Part> := [];
    if left != "" {
      middleParts := middleParts + [Text(left + HSpoke)];
    }
    middleParts := middleParts + [Node(CoreRole)];
    if right != "" {
      middleParts := middleParts + [Text(HSpoke + right)];
    }
    var middleRow := MiddleRow(middleParts);
    assert middleParts == MiddleParts(left, right);
    if top == "" && bottom == "" {
      assert [] + [middleRow] + [] == [middleRow];
      return Cardinal([middleRow]);
    }
    var rows: seq<Row> := [];
    if top != "" {
      rows := rows + [TopSection(top)];
    }
    rows := rows + [middleRow];
    if bottom != "" {
      rows := rows + [BottomSection(bottom)];
    }
    d := Cardinal(rows);
  }

  /**
   * The hub-and-spoke layout of `roles`: nothing without a core role, the
   * core alone without peripherals, the cardinal layout for two to four
   * peripherals and the right-only layout otherwise.
   */
  function HubLayout(roles: seq<string>): Diagram {
    if roles == [] || CoreRole !in roles then Empty
    else
      var peripherals := Peripherals(roles);
      if |peripherals| == 0 then CoreOnly
      else if 2 <= |peripherals| <= 4 then CardinalLayout(peripherals)
      else RightOnlyLayout(peripherals)
  }

  /** `hubAndSpokeDiagram`: splits off the core, then picks the layout by the number of peripherals. */
  method HubAndSpokeDiagram(sections: seq<Section>) returns (d: Diagram)
    ensures d == HubLayout(RolesOf(sections))
  {
    var roles := ExtractRoles(sections);
    if |roles| == 0 {
      return Empty;
    }
    var hasCore := false;
    var peripheralRoles: seq<string> := [];
    var i := 0;
    while i < |roles|
      invariant 0 <= i <= |roles|
      invariant hasCore == (CoreRole in roles[..i])
      invariant peripheralRoles == Peripherals(roles[..i])
    {
      assert roles[..i + 1] == roles[..i] + [roles[i]];
      assert roles[..i + 1][..i] == roles[..i];
      if roles[i] == CoreRole {
        hasCore := true;
      } else {
        peripheralRoles := peripheralRoles + [roles[i]];
      }
      i := i + 1;
    }
    assert roles[..i] == roles;
    if !hasCore {
      return Empty;
    }
    if |peripheralRoles| == 0 {
      return CoreOnly;
    }
    if 2 <= |peripheralRoles| <= 4 {
      d := CardinalHubAndSpoke(peripheralRoles);
      return;
    }
    d := RightOnlyHubAndSpoke(peripheralRoles);
  }

  /**
   * Where the peripherals go, for distinct non-empty roles containing the
   * core: the nth peripheral is the nth role other than the core; none gives
   * the core alone; two to four go right, left, top, bottom in that order,
   * with the top section above the middle row and the bottom section below;
   * one or five and more all go to the right, in order.
   */
  lemma HubPlacement(roles: seq<string>, k: nat)
    requires Distinct(roles) && forall i :: 0 <= i < |roles| ==> roles[i] != ""
    requires k < |roles| && roles[k] == CoreRole
    ensures var p := roles[..k] + roles[k + 1..];
      && (|p| == 0 ==> HubLayout(roles) == CoreOnly)
      && (2 <= |p| <= 4 ==> HubLayout(roles) == Cardinal(
            (if |p| >= 3 then [TopSection(p[2])] else []) +
            [MiddleRow([Text(p[1] + HSpoke), Node(CoreRole), Text(HSpoke + p[0])])] +
            (if |p| == 4 then [BottomSection(p[3])] else [])))
      && ((|p| == 1 || |p| >= 5) ==> HubLayout(roles) == RightOnly(Spokes(p)))
  {
    PeripheralsRemoveCore(roles, k);
    var p := roles[..k] + roles[k + 1..];
    forall i | 0 <= i < |p| ensures p[i] != "" {
      assert p[i] == if i < k then roles[i] else roles[i + 1];
    }
    if |p| >= 2 {
      assert MiddleParts(Slot(p, 1), Slot(p, 0)) == [Text(p[1] + HSpoke), Node(CoreRole), Text(HSpoke + p[0])];
    }
  }

  // ---------------------------------------------------------------------------
  // Dispatch

  /** The diagram for a narrative tag and the story's sections. */
  function DiagramOf(narrative: string, sections: seq<Section>): Diagram {
    if |sections| == 0 then Empty
    else
      match ParseNarrative(narrative)
      case None => Empty
      case Some(CorePeriphery) => HubLayout(RolesOf(sections))
      case Some(_) => FlowLayout(RolesOf(sections))
  }

  /** `NarrativeDiagram`: no sections or an unknown tag give nothing; otherwise the tag picks the layout. */
  method NarrativeDiagram(narrative: string, sections: seq<Section>) returns (d: Diagram)
    ensures d == DiagramOf(narrative, sections)
  {
    if |sections| == 0 {
      return Empty;
    }
    match ParseNarrative(narrative)
    case None =>
      d := Empty;
    case Some(CorePeriphery) =>
      d := HubAndSpokeDiagram(sections);
    case Some(_) =>
      d := LinearFlowDiagram(sections);
  }

  /** The four linear tags select the flow, "core-periphery" the hub, anything else nothing. */
  lemma DispatchByTag(narrative: string, sections: seq<Section>)
    ensures narrative in {"cause-effect", "entry-implementation", "before-after", "rule-instances"} ==>
      DiagramOf(narrative, sections) == FlowLayout(RolesOf(sections))
    ensures narrative == "core-periphery" ==> DiagramOf(narrative, sections) == HubLayout(RolesOf(sections))
    ensures ParseNarrative(narrative) == None ==> DiagramOf(narrative, sections) == Empty
  {
  }

  /**
   * The diagram is empty exactly when there are no sections, the tag is
   * unknown, no section has a role, or a hub is asked for without a core.
   */
  lemma DiagramEmptyIff(narrative: string, sections: seq<Section>)
    ensures DiagramOf(narrative, sections) == Empty <==>
      sections == [] || ParseNarrative(narrative) == None || RolesOf(sections) == [] ||
      (ParseNarrative(narrative) == Some(CorePeriphery) && CoreRole !in RolesOf(sections))
  {
    if sections != [] && ParseNarrative(narrative).Some? {
      var roles := RolesOf(sections);
      if ParseNarrative(narrative) == Some(CorePeriphery) {
        assert DiagramOf(narrative, sections) == HubLayout(roles);
        HubLayoutEmptyIff(roles);
      } else {
        assert DiagramOf(narrative, sections) == FlowLayout(roles);
      }
    }
  }

  /** A hub is drawn exactly when the core role is present. */
  lemma HubLayoutEmptyIff(roles: seq<string>)
    ensures HubLayout(roles) == Empty <==> CoreRole !in roles
  {
    if CoreRole in roles {
      var p := Peripherals(roles);
      if 2 <= |p| <= 4 {
        assert CardinalLayout(p).Cardinal?;
      }
    }
  }

  /** A linear narrative over distinct roles has one arrow fewer than it has roles. */
  lemma LinearFlowArrows(narrative: string, sections: seq<Section>)
    requires sections != [] && RolesOf(sections) != []
    requires ParseNarrative(narrative).Some? && ParseNarrative(narrative).value != CorePeriphery
    ensures DiagramOf(narrative, sections).Linear?
    ensures multiset(DiagramOf(narrative, sections).parts)[Text(Arrow)] == |RolesOf(sections)| - 1
  {
    var roles := RolesOf(sections);
    var parts := FlowParts(roles);
    assert DiagramOf(narrative, sections) == Linear(parts);
    RolesDistinct(sections);
    FlowPartsCounts(roles, "");
  }

  // ---------------------------------------------------------------------------
  // The intro screen's tests

  /** Repeated roles are shown once: fix, fix, test gives fix → test. */
  lemma DeduplicatesRolesExample()
    ensures DiagramOf("cause-effect", [Section("fix", "First fix"), Section("fix", "Second fix"), Section("test", "Tests")])
      == Linear([Node("fix"), Text(Arrow), Node("test")])
  {
    var ss := [Section("fix", "First fix"), Section("fix", "Second fix"), Section("test", "Tests")];
    assert ss[..1][..0] == [];
    assert RolesOf(ss[..1]) == ["fix"];
    assert ss[..2][..1] == ss[..1];
    assert RolesOf(ss[..2]) == ["fix"];
    assert ss[..3] == ss;
    var roles := ["fix", "test"];
    assert RolesOf(ss) == roles;
    assert roles[..1] == ["fix"];
    assert FlowParts(roles) == [Node("fix")] + [Text(Arrow), Node("test")];
  }

  /** Sections without roles, or an unknown tag, give nothing. */
  lemma EmptyDiagramExamples()
    ensures DiagramOf("cause-effect", []) == Empty
    ensures DiagramOf("cause-effect", [Section("", "First"), Section("", "Second")]) == Empty
    ensures DiagramOf("unknown-narrative", [Section("core", "Changes")]) == Empty
  {
    var ss := [Section("", "First"), Section("", "Second")];
    assert ss[..1][..0] == [];
    assert RolesOf(ss) == [];
  }

  /** A hub is not drawn without a core role. */
  lemma NoCoreExample()
    ensures DiagramOf("core-periphery", [Section("supporting", "Support Only"), Section("test", "Test Only")]) == Empty
  {
    var ss := [Section("supporting", "Support Only"), Section("test", "Test Only")];
    assert ss[..1][..0] == [];
    assert RolesOf(ss) == ["supporting", "test"];
  }

  /** Sections whose roles are non-empty and pairwise different keep their roles, in order. */
  lemma {:induction false} RolesOfFreshSections(sections: seq<Section>, roles: seq<string>)
    requires |sections| == |roles| && Distinct(roles)
    requires forall i :: 0 <= i < |roles| ==> roles[i] != "" && sections[i].role == roles[i]
    ensures RolesOf(sections) == roles
  {
    if sections != [] {
      var n := |sections|;
      RolesOfFreshSections(sections[..n - 1], roles[..n - 1]);
      var prefix := roles[..n - 1];
      assert roles[n - 1] !in prefix by {
        forall i | 0 <= i < |prefix| ensures prefix[i] != roles[n - 1] {
          assert prefix[i] == roles[i];
        }
      }
      assert roles == roles[..n - 1] + [roles[n - 1]];
    }
  }

  /** A core-periphery story whose sections carry distinct non-empty roles is the hub of those roles. */
  lemma CorePeripheryFresh(sections: seq<Section>, roles: seq<string>)
    requires |sections| == |roles| && Distinct(roles) && roles != []
    requires forall i :: 0 <= i < |roles| ==> roles[i] != "" && sections[i].role == roles[i]
    ensures DiagramOf("core-periphery", sections) == HubLayout(roles)
  {
    DispatchByTag("core-periphery", sections);
    RolesOfFreshSections(sections, roles);
  }

  /** One peripheral uses the right-only layout, the core before its spoke. */
  lemma OnePeripheralExample()
    ensures DiagramOf("core-periphery", [Section("core", "Main Change"), Section("test", "Verification")]) ==
      RightOnly([RightSpoke + "test"])
  {
    var roles := ["core", "test"];
    CorePeripheryFresh([Section("core", "Main Change"), Section("test", "Verification")], roles);
    HubPlacement(roles, 0);
    assert roles[..0] + roles[1..] == ["test"];
  }

  /** Two peripherals: supporting on the left of the core, test on its right. */
  lemma TwoPeripheralsExample()
    ensures DiagramOf("core-periphery",
      [Section("core", "Main Change"), Section("test", "Verification"), Section("supporting", "Support")]) ==
      Cardinal([MiddleRow([Text("supporting" + HSpoke), Node(CoreRole), Text(HSpoke + "test")])])
  {
    var roles := ["core", "test", "supporting"];
    CorePeripheryFresh([Section("core", "Main Change"), Section("test", "Verification"), Section("supporting", "Support")], roles);
    HubPlacement(roles, 0);
    assert roles[..0] + roles[1..] == ["test", "supporting"];
  }

  /** Three peripherals: test right, supporting left, cleanup on top. */
  lemma ThreePeripheralsExample()
    ensures DiagramOf("core-periphery",
      [Section("core", "Main Change"), Section("test", "Verification"), Section("supporting", "Support"),
       Section("cleanup", "Cleanup")]) ==
      Cardinal([TopSection("cleanup"), MiddleRow([Text("supporting" + HSpoke), Node(CoreRole), Text(HSpoke + "test")])])
  {
    var roles := ["core", "test", "supporting", "cleanup"];
    CorePeripheryFresh([Section("core", "Main Change"), Section("test", "Verification"), Section("supporting", "Support"),
      Section("cleanup", "Cleanup")], roles);
    HubPlacement(roles, 0);
    assert roles[..0] + roles[1..] == ["test", "supporting", "cleanup"];
  }

  /** Four peripherals: test right, supporting left, cleanup on top, infra below. */
  lemma FourPeripheralsExample()
    ensures DiagramOf("core-periphery",
      [Section("core", "Main Change"), Section("test", "Verification"), Section("supporting", "Support"),
       Section("cleanup", "Cleanup"), Section("infra", "Infrastructure")]) ==
      Cardinal([
        TopSection("cleanup"),
        MiddleRow([Text("supporting" + HSpoke), Node(CoreRole), Text(HSpoke + "test")]),
        BottomSection("infra")])
  {
    var roles := ["core", "test", "supporting", "cleanup", "infra"];
    CorePeripheryFresh([Section("core", "Main Change"), Section("test", "Verification"), Section("supporting", "Support"),
      Section("cleanup", "Cleanup"), Section("infra", "Infrastructure")], roles);
    HubPlacement(roles, 0);
    assert roles[..0] + roles[1..] == ["test", "supporting", "cleanup", "infra"];
  }

  /** Five peripherals fall back to the right-only layout, in order. */
  lemma FivePeripheralsExample()
    ensures DiagramOf("core-periphery",
      [Section("core", "Main Change"), Section("test", "Test"), Section("supporting", "Support"),
       Section("cleanup", "Cleanup"), Section("infra", "Infrastructure"), Section("docs", "Documentation")]) ==
      RightOnly([RightSpoke + "test", RightSpoke + "supporting", RightSpoke + "cleanup", RightSpoke + "infra", RightSpoke + "docs"])
  {
    var ss := [Section("core", "Main Change"), Section("test", "Test"), Section("supporting", "Support"),
      Section("cleanup", "Cleanup"), Section("infra", "Infrastructure"), Section("docs", "Documentation")];
    var roles := ["core", "test", "supporting", "cleanup", "infra", "docs"];
    CorePeripheryFresh(ss, roles);
    FivePeripheralsHub();
  }

  /** The roles of the five-peripheral test give five right spokes. */
  lemma FivePeripheralsHub()
    ensures HubLayout(["core", "test", "supporting", "cleanup", "infra", "docs"]) ==
      RightOnly([RightSpoke + "test", RightSpoke + "supporting", RightSpoke + "cleanup", RightSpoke + "infra", RightSpoke + "docs"])
  {
    var rest := ["test", "supporting", "cleanup", "infra", "docs"];
    assert [] + [CoreRole] + rest == ["core", "test", "supporting", "cleanup", "infra", "docs"];
    PeripheralsAroundCore([], rest);
    assert Spokes(rest) == [RightSpoke + "test", RightSpoke + "supporting", RightSpoke + "cleanup", RightSpoke + "infra", RightSpoke + "docs"];
  }

  /** A repeated peripheral role gets one spoke: core, supporting, supporting, test, cleanup. */
  lemma ManyRolesExample()
    ensures DiagramOf("core-periphery",
      [Section("core", "Main"), Section("supporting", "Support 1"), Section("supporting", "Support 2"),
       Section("test", "Tests"), Section("cleanup", "Cleanup")]) ==
      Cardinal([TopSection("cleanup"), MiddleRow([Text("test" + HSpoke), Node(CoreRole), Text(HSpoke + "supporting")])])
  {
    DispatchByTag("core-periphery", [Section("core", "Main"), Section("supporting", "Support 1"), Section("supporting", "Support 2"),
       Section("test", "Tests"), Section("cleanup", "Cleanup")]);
    ManyRolesDeduplicated();
    ManyRolesHub();
  }

  /** The sections of the many-roles test give each of their four roles once, in order. */
  lemma ManyRolesDeduplicated()
    ensures RolesOf([Section("core", "Main"), Section("supporting", "Support 1"), Section("supporting", "Support 2"),
       Section("test", "Tests"), Section("cleanup", "Cleanup")]) == ["core", "supporting", "test", "cleanup"]
  {
    var ss := [Section("core", "Main"), Section("supporting", "Support 1"), Section("supporting", "Support 2"),
      Section("test", "Tests"), Section("cleanup", "Cleanup")];
    RolesOfFreshSections(ss[..2], ["core", "supporting"]);
    assert ss[..3][..2] == ss[..2];
    assert RolesOf(ss[..3]) == ["core", "supporting"];
    assert ss[..4][..3] == ss[..3];
    assert RolesOf(ss[..4]) == ["core", "supporting", "test"];
    assert ss[..5][..4] == ss[..4];
    assert ss[..5] == ss;
  }

  /** The roles of the many-roles test: supporting right, test left, cleanup on top. */
  lemma ManyRolesHub()
    ensures HubLayout(["core", "supporting", "test", "cleanup"]) ==
      Cardinal([TopSection("cleanup"), MiddleRow([Text("test" + HSpoke), Node(CoreRole), Text(HSpoke + "supporting")])])
  {
    var roles := ["core", "supporting", "test", "cleanup"];
    HubPlacement(roles, 0);
    assert roles[..0] + roles[1..] == ["supporting", "test", "cleanup"];
  }
}
