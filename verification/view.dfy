/**
 The dashboard's view state (App.tsx): the active phase, the one expanded
 milestone, the one expanded topic, and the completed set, with the click
 handlers that move them. Whether a milestone click landed on its checkbox
 (`target.closest('.milestone-check')`) is an input of the click.
 */
module View {
  import opened Wrappers
  import opened Types
  import opened Roadmap
  import opened Progress

  datatype Dashboard = Dashboard(
    activePhaseId: int,
    expandedMilestone: Option<string>,
    expandedTopic: Option<string>,
    completed: set<string>)

  /** Phase 1 active, nothing expanded, nothing completed. */
  function InitialDashboard(): Dashboard {
    Dashboard(1, None, None, {})
  }

  /** `ROADMAP_DATA.find(p => p.id === activePhaseId) || ROADMAP_DATA[0]`,
      with the table as an argument. */
  function ActivePhaseIn(phases: seq<Phase>, d: Dashboard): (p: Phase)
    requires |phases| > 0
    ensures p in phases
    ensures d.activePhaseId in PhaseIds(phases) ==> p.id == d.activePhaseId
    ensures d.activePhaseId !in PhaseIds(phases) ==> p == phases[0]
  {
    var found := FindPhase(phases, d.activePhaseId);
    assert d.activePhaseId in PhaseIds(phases) <==> found.Some? by {
      if found.Some? {
        var k :| 0 <= k < |phases| && phases[k] == found.value;
        assert PhaseIds(phases)[k] == d.activePhaseId;
      }
    }
    found.GetOr(phases[0])
  }

  /** The phase the app renders. */
  function ActivePhase(d: Dashboard): Phase {
    ActivePhaseIn(RoadmapData, d)
  }

  /** Select-to-open, re-click-to-close on a single-valued cursor. */
  function Reclick(cursor: Option<string>, key: string): (r: Option<string>)
    ensures r == None <==> cursor == Some(key)
    ensures r != None ==> r == Some(key)
  {
    if cursor == Some(key) then None else Some(key)
  }

  /** A phase card's click: that phase becomes active and both expansions close. */
  function SelectPhase(d: Dashboard, phaseId: int): (r: Dashboard)
    ensures r.activePhaseId == phaseId
    ensures r.expandedMilestone == None && r.expandedTopic == None
    ensures r.completed == d.completed
  {
    d.(activePhaseId := phaseId, expandedMilestone := None, expandedTopic := None)
  }

  /** `toggleMilestone(id, e)`: a click on the checkbox flips completion, any
      other click on the card toggles its expansion. */
  function ClickMilestone(d: Dashboard, id: string, onCheckbox: bool): (r: Dashboard)
    ensures r.activePhaseId == d.activePhaseId && r.expandedTopic == d.expandedTopic
    ensures onCheckbox ==> r.expandedMilestone == d.expandedMilestone
    ensures !onCheckbox ==> r.completed == d.completed
  {
    if onCheckbox then d.(completed := Toggle(d.completed, id))
    else d.(expandedMilestone := Reclick(d.expandedMilestone, id))
  }

  /** A topic header's click toggles the topic's expansion. */
  function ClickTopic(d: Dashboard, name: string): (r: Dashboard)
    ensures r.expandedTopic == None <==> d.expandedTopic == Some(name)
    ensures r.expandedTopic != None ==> r.expandedTopic == Some(name)
    ensures r.activePhaseId == d.activePhaseId && r.expandedMilestone == d.expandedMilestone
    ensures r.completed == d.completed
  {
    d.(expandedTopic := Reclick(d.expandedTopic, name))
  }

  /** A checkbox click flips exactly that id, leaves every cursor alone, and a
      second click on the same checkbox restores the dashboard. */
  lemma CheckboxClickTogglesOnlyThatId(d: Dashboard, id: string)
    ensures var r := ClickMilestone(d, id, true);
            && (id in r.completed <==> id !in d.completed)
            && (forall x | x != id :: x in r.completed <==> x in d.completed)
            && r.activePhaseId == d.activePhaseId
            && r.expandedMilestone == d.expandedMilestone
            && r.expandedTopic == d.expandedTopic
    ensures ClickMilestone(ClickMilestone(d, id, true), id, true) == d
  {
    ToggleInvolution(d.completed, id);
  }

  /** A click elsewhere on a milestone card closes it if it was the expanded
      one and otherwise expands it; completion and the topic stay as they were. */
  lemma CardClickTogglesExpansion(d: Dashboard, id: string)
    ensures var r := ClickMilestone(d, id, false);
            && (r.expandedMilestone == None <==> d.expandedMilestone == Some(id))
            && (r.expandedMilestone != None ==> r.expandedMilestone == Some(id))
            && r.completed == d.completed
            && r.expandedTopic == d.expandedTopic
            && r.activePhaseId == d.activePhaseId
    ensures ClickMilestone(ClickMilestone(d, id, false), id, false).expandedMilestone
            == (if d.expandedMilestone == Some(id) then Some(id) else None)
  {
  }

  /** A topic click toggles the topic cursor the same way and touches nothing else. */
  lemma TopicClickTogglesExpansion(d: Dashboard, name: string)
    ensures var r := ClickTopic(d, name);
            && (r.expandedTopic == None <==> d.expandedTopic == Some(name))
            && (r.expandedTopic != None ==> r.expandedTopic == Some(name))
            && r.expandedMilestone == d.expandedMilestone
            && r.completed == d.completed
            && r.activePhaseId == d.activePhaseId
  {
  }

  datatype Event =
    | PhaseCardClick(phaseId: int)
    | MilestoneClick(id: string, onCheckbox: bool)
    | TopicClick(name: string)

  /** One click on the page: only a phase card moves the active phase, only a
      checkbox changes completion, and only a topic header that is not a phase
      card moves the topic cursor. */
  function Step(d: Dashboard, e: Event): (r: Dashboard)
    ensures r.activePhaseId != d.activePhaseId ==> e.PhaseCardClick?
    ensures r.completed != d.completed ==> e.MilestoneClick? && e.onCheckbox
    ensures r.expandedTopic != d.expandedTopic ==> e.PhaseCardClick? || e.TopicClick?
    ensures r.expandedMilestone != d.expandedMilestone ==>
              e.PhaseCardClick? || (e.MilestoneClick? && !e.onCheckbox)
  {
    match e
    case PhaseCardClick(phaseId) => SelectPhase(d, phaseId)
    case MilestoneClick(id, onCheckbox) => ClickMilestone(d, id, onCheckbox)
    case TopicClick(name) => ClickTopic(d, name)
  }

  /** The events a page rendered from `phases` can produce: a card per phase,
      and a milestone card or topic header per entry of the active phase. */
  predicate Offered(phases: seq<Phase>, d: Dashboard, e: Event)
    requires |phases| > 0
  {
    match e
    case PhaseCardClick(phaseId) => phaseId in PhaseIds(phases)
    case MilestoneClick(id, _) => id in MilestoneIds(ActivePhaseIn(phases, d).milestones)
    case TopicClick(name) => name in TopicNames(ActivePhaseIn(phases, d).topics)
  }

  /** The active id names a phase of the table and only its milestone ids are completed. */
  predicate WithinTable(phases: seq<Phase>, d: Dashboard) {
    && d.activePhaseId in PhaseIds(phases)
    && d.completed <= MilestoneIdSet(phases)
  }

  /** A milestone of a phase of the table has an id of the table. */
  lemma PhaseMilestoneInTable(phases: seq<Phase>, p: Phase, id: string)
    requires p in phases && id in MilestoneIds(p.milestones)
    ensures id in MilestoneIdSet(phases)
  {
    var k :| 0 <= k < |p.milestones| && MilestoneIds(p.milestones)[k] == id;
    var m := p.milestones[k];
    var all := AllMilestones(phases);
    assert m in all;
    var j :| 0 <= j < |all| && all[j] == m;
    assert MilestoneIds(all)[j] == id;
  }

  /** Every offered event keeps the dashboard within the table. */
  lemma StepKeepsWithinTable(phases: seq<Phase>, d: Dashboard, e: Event)
    requires |phases| > 0
    requires WithinTable(phases, d) && Offered(phases, d, e)
    ensures WithinTable(phases, Step(d, e))
  {
    if e.MilestoneClick? && e.onCheckbox {
      PhaseMilestoneInTable(phases, ActivePhaseIn(phases, d), e.id);
    }
  }

  /** Within a well-formed table the lookup finds the active id itself, and
      that phase's progress is defined. */
  lemma WithinTableFindsPhase(phases: seq<Phase>, d: Dashboard)
    requires WellFormed(phases) && WithinTable(phases, d)
    ensures FindPhase(phases, d.activePhaseId).Some?
    ensures ActivePhaseIn(phases, d).id == d.activePhaseId
    ensures CalculateProgress(ActivePhaseIn(phases, d), d.completed).Some?
  {
  }

  /** The app starts within its table. */
  lemma InitialWithinTable()
    ensures WithinTable(RoadmapData, InitialDashboard())
  {
    RoadmapShape();
  }

  /** Within the app's table means: on phase 1, 2 or 3, with only shipped ids completed. */
  lemma WithinAppTable(d: Dashboard)
    ensures WithinTable(RoadmapData, d)
        <==> d.activePhaseId in {1, 2, 3} && d.completed <= ShippedMilestoneIds()
  {
    RoadmapShape();
    ShippedMilestoneIdsFromTable();
  }

  /** On phase 1, 2 or 3 with only shipped ids completed, the phase lookup never
      falls back to the first phase, the phase shows 0, 33, 67 or 100, and the
      total lies in [0, 100]. */
  lemma WithinTableReadings(d: Dashboard)
    requires d.activePhaseId in {1, 2, 3} && d.completed <= ShippedMilestoneIds()
    ensures ActivePhase(d).id == d.activePhaseId
    ensures CalculateProgress(ActivePhase(d), d.completed).Some?
    ensures CalculateProgress(ActivePhase(d), d.completed).value in {0, 33, 67, 100}
    ensures TotalCompletion(d.completed) <= 100
  {
    WithinAppTable(d);
    RoadmapWellFormed();
    WithinTableFindsPhase(RoadmapData, d);
    RoadmapShape();
    ThreeMilestoneProgress(ActivePhase(d), d.completed);
    TotalCompletionBounded(d.completed);
  }

  /** Positions of the topics whose resources are shown (`expandedTopic === topic.name`). */
  function ExpandedTopics(ts: seq<TopicResource>, cursor: Option<string>): set<nat> {
    set i: nat | i < |ts| && cursor == Some(ts[i].name)
  }

  /** Positions of the milestones whose guide is shown
      (`expandedMilestone === milestone.id && milestone.guide`). */
  function ExpandedGuides(ms: seq<Milestone>, cursor: Option<string>): set<nat> {
    set i: nat | i < |ms| && cursor == Some(ms[i].id) && ms[i].guide.Some?
  }

  /** Distinct topic names: at most one topic is shown expanded. */
  lemma AtMostOneTopicShown(ts: seq<TopicResource>, cursor: Option<string>)
    requires Distinct(TopicNames(ts))
    ensures |ExpandedTopics(ts, cursor)| <= 1
  {
    var shown := ExpandedTopics(ts, cursor);
    if shown != {} {
      var i :| i in shown;
      forall j | j in shown ensures j == i {
        assert TopicNames(ts)[i] == TopicNames(ts)[j];
      }
      assert shown <= {i};
      SubsetCardinality(shown, {i});
    }
  }

  /** Distinct milestone ids: at most one guide is shown. */
  lemma AtMostOneGuideShown(ms: seq<Milestone>, cursor: Option<string>)
    requires Distinct(MilestoneIds(ms))
    ensures |ExpandedGuides(ms, cursor)| <= 1
  {
    var shown := ExpandedGuides(ms, cursor);
    if shown != {} {
      var i :| i in shown;
      forall j | j in shown ensures j == i {
        assert MilestoneIds(ms)[i] == MilestoneIds(ms)[j];
      }
      assert shown <= {i};
      SubsetCardinality(shown, {i});
    }
  }

  /** In a well-formed table, at most one topic and one guide is open. */
  lemma OneExpansionEach(phases: seq<Phase>, d: Dashboard)
    requires WellFormed(phases)
    ensures |ExpandedTopics(ActivePhaseIn(phases, d).topics, d.expandedTopic)| <= 1
    ensures |ExpandedGuides(ActivePhaseIn(phases, d).milestones, d.expandedMilestone)| <= 1
  {
    var p := ActivePhaseIn(phases, d);
    AtMostOneTopicShown(p.topics, d.expandedTopic);
    PhaseMilestoneIdsDistinct(phases, p);
    AtMostOneGuideShown(p.milestones, d.expandedMilestone);
  }

  /** Ids distinct across the table are distinct within each phase. */
  lemma {:induction false} PhaseMilestoneIdsDistinct(phases: seq<Phase>, p: Phase)
    requires Distinct(MilestoneIds(AllMilestones(phases))) && p in phases
    ensures Distinct(MilestoneIds(p.milestones))
  {
    if phases[0] != p {
      DistinctIdsSplit(phases[0].milestones, AllMilestones(phases[1..]));
      PhaseMilestoneIdsDistinct(phases[1..], p);
    } else {
      DistinctIdsSplit(p.milestones, AllMilestones(phases[1..]));
    }
  }

  /** Both halves of a duplicate-free id list are duplicate-free. */
  lemma DistinctIdsSplit(a: seq<Milestone>, b: seq<Milestone>)
    requires Distinct(MilestoneIds(a + b))
    ensures Distinct(MilestoneIds(a)) && Distinct(MilestoneIds(b))
  {
    var ids := MilestoneIds(a + b);
    forall i, j | 0 <= i < j < |a| ensures a[i].id != a[j].id {
      assert ids[i] != ids[j];
    }
    forall i, j | 0 <= i < j < |b| ensures b[i].id != b[j].id {
      assert ids[|a| + i] != ids[|a| + j];
    }
  }
}
