/** The analysis tabs of the workspace (frontend/src/components/workspace/AIAnalysisTabs.tsx):
    the active tab, the list of rewrite suggestions with their accept/reject decisions, the
    placeholder rules of the skill and suggestion lists, and the paragraphs of the
    explanation. */
module AnalysisTabs {
  import opened Wrappers
  import opened Strings
  import opened ApiTypes
  import RuleEngine

  // ----- tabs -----

  datatype Tab = Overview | SkillGap | Rewrite | Ats | Explain

  /** The tab bar, in display order. */
  const Tabs: seq<Tab> := [Overview, SkillGap, Rewrite, Ats, Explain]

  /** The `id` of each entry of the tab bar. */
  function TabId(t: Tab): string {
    match t
    case Overview => "overview"
    case SkillGap => "skillgap"
    case Rewrite => "rewrite"
    case Ats => "ats"
    case Explain => "explain"
  }

  const TabIds: seq<string> := ["overview", "skillgap", "rewrite", "ats", "explain"]

  /** The tab ids are the five ids, distinct, so an id names exactly one tab. */
  lemma TabIdsIdentifyTabs()
    ensures forall t: Tab :: TabId(t) in TabIds
    ensures forall t: Tab, u: Tab :: TabId(t) == TabId(u) ==> t == u
    ensures forall id | id in TabIds :: exists t: Tab :: TabId(t) == id
  {
    forall id | id in TabIds
      ensures exists t: Tab :: TabId(t) == id
    {
      if id == "overview" { assert TabId(Overview) == id; }
      else if id == "skillgap" { assert TabId(SkillGap) == id; }
      else if id == "rewrite" { assert TabId(Rewrite) == id; }
      else if id == "ats" { assert TabId(Ats) == id; }
      else { assert TabId(Explain) == id; }
    }
  }

  /** The panels rendered for an active tab id: every tab whose `activeTab === tab.id`. */
  function ShownPanels(activeTab: string): (r: seq<Tab>)
    ensures forall t :: t in r <==> TabId(t) == activeTab
  {
    EveryTabListed();
    RenderedPanels(Tabs, activeTab)
  }

  lemma EveryTabListed()
    ensures forall t: Tab :: t in Tabs
  {
    forall t: Tab
      ensures t in Tabs
    {
      match t
      case Overview => assert Tabs[0] == t;
      case SkillGap => assert Tabs[1] == t;
      case Rewrite => assert Tabs[2] == t;
      case Ats => assert Tabs[3] == t;
      case Explain => assert Tabs[4] == t;
    }
  }

  function RenderedPanels(tabs: seq<Tab>, activeTab: string): (r: seq<Tab>)
    ensures forall t :: t in r <==> t in tabs && TabId(t) == activeTab
    decreases |tabs|
  {
    if tabs == [] then []
    else (if TabId(tabs[0]) == activeTab then [tabs[0]] else []) + RenderedPanels(tabs[1..], activeTab)
  }

  /** A valid active tab id renders exactly one panel, the tab with that id. */
  lemma ValidTabShowsOnePanel(t: Tab)
    ensures ShownPanels(TabId(t)) == [t]
  {
    TabIdsIdentifyTabs();
    EveryTabListed();
    RenderedOnlyMatch(Tabs, t);
  }

  /** No tab of the list has the active id: no panel renders. */
  lemma {:induction false} NoMatchRendersNothing(tabs: seq<Tab>, activeTab: string)
    requires forall u | u in tabs :: TabId(u) != activeTab
    ensures RenderedPanels(tabs, activeTab) == []
    decreases |tabs|
  {
    if tabs != [] {
      assert tabs[0] in tabs;
      NoMatchRendersNothing(tabs[1..], activeTab);
    }
  }

  /** In a list that holds `t` once, only `t` has its id. */
  lemma {:induction false} RenderedOnlyMatch(tabs: seq<Tab>, t: Tab)
    requires t in tabs && NoDuplicates(tabs)
    requires forall u: Tab :: TabId(u) == TabId(t) ==> u == t
    ensures RenderedPanels(tabs, TabId(t)) == [t]
    decreases |tabs|
  {
    if tabs[0] == t {
      assert t !in tabs[1..];
      NoMatchRendersNothing(tabs[1..], TabId(t));
    } else {
      assert t in tabs[1..];
      RenderedOnlyMatch(tabs[1..], t);
    }
  }

  // ----- rewrite suggestions -----

  datatype RewriteSuggestion = RewriteSuggestion(id: int, original: string, improved: string, accepted: Option<bool>)

  /** The fixed text every suggestion carries as its original bullet. */
  const OriginalPlaceholder := "Original Bullet (from Resume)"

  /** The initial state: one undecided suggestion per rewritten bullet, numbered by position. */
  function InitialRewrites(bullets: seq<string>): (rs: seq<RewriteSuggestion>)
    ensures |rs| == |bullets|
    ensures forall i | 0 <= i < |rs| ::
      rs[i].id == i && rs[i].improved == bullets[i] && rs[i].original == OriginalPlaceholder
      && rs[i].accepted.None?
  {
    seq(|bullets|, i requires 0 <= i < |bullets| => RewriteSuggestion(i, OriginalPlaceholder, bullets[i], None))
  }

  /** Every suggestion's id is its position. */
  predicate IdsArePositions(rs: seq<RewriteSuggestion>) {
    forall i | 0 <= i < |rs| :: rs[i].id == i
  }

  /** `handleRewriteAction`: record the decision on every suggestion with that id. */
  function WithDecision(rs: seq<RewriteSuggestion>, id: int, accepted: bool): (r: seq<RewriteSuggestion>)
    ensures |r| == |rs|
    ensures forall i | 0 <= i < |rs| ::
      r[i].id == rs[i].id && r[i].original == rs[i].original && r[i].improved == rs[i].improved
    ensures forall i | 0 <= i < |rs| ::
      r[i].accepted == if rs[i].id == id then Some(accepted) else rs[i].accepted
  {
    seq(|rs|, i requires 0 <= i < |rs| => if rs[i].id == id then rs[i].(accepted := Some(accepted)) else rs[i])
  }

  lemma InitialIdsArePositions(bullets: seq<string>)
    ensures IdsArePositions(InitialRewrites(bullets))
  {
  }

  /** A decision keeps ids, and so keeps them equal to positions. */
  lemma DecisionKeepsIds(rs: seq<RewriteSuggestion>, id: int, accepted: bool)
    requires IdsArePositions(rs)
    ensures IdsArePositions(WithDecision(rs, id, accepted))
  {
  }

  /** An id that no suggestion has changes nothing. */
  lemma UnknownIdIsNoOp(rs: seq<RewriteSuggestion>, id: int, accepted: bool)
    requires forall i | 0 <= i < |rs| :: rs[i].id != id
    ensures WithDecision(rs, id, accepted) == rs
  {
  }

  /** With ids equal to positions, a decision on a position updates exactly that entry. */
  lemma DecisionUpdatesOneEntry(rs: seq<RewriteSuggestion>, id: int, accepted: bool)
    requires IdsArePositions(rs) && 0 <= id < |rs|
    ensures WithDecision(rs, id, accepted) == rs[id := rs[id].(accepted := Some(accepted))]
  {
  }

  /** On the same id, the later decision wins. */
  lemma LaterDecisionWins(rs: seq<RewriteSuggestion>, id: int, first: bool, second: bool)
    ensures WithDecision(WithDecision(rs, id, first), id, second) == WithDecision(rs, id, second)
  {
  }

  /** Decisions on different ids commute. */
  lemma DecisionsCommute(rs: seq<RewriteSuggestion>, id1: int, a1: bool, id2: int, a2: bool)
    requires id1 != id2
    ensures WithDecision(WithDecision(rs, id1, a1), id2, a2) == WithDecision(WithDecision(rs, id2, a2), id1, a1)
  {
  }

  // ----- decisions through the interface -----

  /** The Accept and Reject buttons of a card are shown only while it is undecided. */
  predicate ControlsShown(r: RewriteSuggestion) {
    r.accepted.None?
  }

  /** A card with this id shows its buttons. */
  predicate Clickable(rs: seq<RewriteSuggestion>, id: int) {
    exists i | 0 <= i < |rs| :: rs[i].id == id && ControlsShown(rs[i])
  }

  /** A click the interface can deliver: only through a shown button. */
  function UiClick(rs: seq<RewriteSuggestion>, id: int, accepted: bool): seq<RewriteSuggestion> {
    if Clickable(rs, id) then WithDecision(rs, id, accepted) else rs
  }

  /** Through the interface a decided suggestion keeps its decision. */
  lemma DecisionIsFinal(rs: seq<RewriteSuggestion>, id: int, accepted: bool, k: nat)
    requires IdsArePositions(rs) && k < |rs| && rs[k].accepted.Some?
    ensures UiClick(rs, id, accepted)[k] == rs[k]
  {
    if Clickable(rs, id) {
      var i :| 0 <= i < |rs| && rs[i].id == id && ControlsShown(rs[i]);
      assert i != k;
    }
  }

  /** A sequence of clicks: suggestion id and accept or reject. */
  datatype Click = Click(id: int, accept: bool)

  /** The suggestions after the clicks, starting from the initial list. */
  function Replay(bullets: seq<string>, clicks: seq<Click>): seq<RewriteSuggestion>
    decreases |clicks|
  {
    if clicks == [] then InitialRewrites(bullets)
    else
      var last := clicks[|clicks| - 1];
      UiClick(Replay(bullets, clicks[..|clicks| - 1]), last.id, last.accept)
  }

  /** The first decision the clicks make on suggestion `k`. */
  function FirstDecision(clicks: seq<Click>, k: int): Option<bool>
    decreases |clicks|
  {
    if clicks == [] then None
    else if clicks[0].id == k then Some(clicks[0].accept)
    else FirstDecision(clicks[1..], k)
  }

  lemma {:induction false} FirstDecisionAppend(clicks: seq<Click>, c: Click, k: int)
    ensures FirstDecision(clicks + [c], k) ==
      if FirstDecision(clicks, k).Some? then FirstDecision(clicks, k)
      else if c.id == k then Some(c.accept) else None
    decreases |clicks|
  {
    if clicks != [] {
      assert (clicks + [c])[1..] == clicks[1..] + [c];
      FirstDecisionAppend(clicks[1..], c, k);
    }
  }

  /** Whatever the clicks, each suggestion keeps its text and holds the first decision made on
      it: an entry moves at most once, from undecided to accepted or rejected. */
  lemma {:induction false} ReplayKeepsFirstDecision(bullets: seq<string>, clicks: seq<Click>)
    ensures var rs := Replay(bullets, clicks);
      |rs| == |bullets| && IdsArePositions(rs)
      && forall k | 0 <= k < |rs| ::
        rs[k].improved == bullets[k] && rs[k].original == OriginalPlaceholder
        && rs[k].accepted == FirstDecision(clicks, k)
    decreases |clicks|
  {
    if clicks != [] {
      var init := clicks[..|clicks| - 1];
      var last := clicks[|clicks| - 1];
      ReplayKeepsFirstDecision(bullets, init);
      assert clicks == init + [last];
      var prev := Replay(bullets, init);
      forall k | 0 <= k < |prev|
        ensures FirstDecision(clicks, k) ==
          if FirstDecision(init, k).Some? then FirstDecision(init, k)
          else if last.id == k then Some(last.accept) else None
      {
        FirstDecisionAppend(init, last, k);
      }
      if Clickable(prev, last.id) {
        var i :| 0 <= i < |prev| && prev[i].id == last.id && ControlsShown(prev[i]);
        assert i == last.id;
      } else {
        forall k | 0 <= k < |prev| && last.id == k
          ensures FirstDecision(init, k).Some?
        {
          assert !ControlsShown(prev[k]);
        }
      }
    }
  }

  // ----- list placeholders -----

  /** A list panel shows its items as chips, or a note when there are none. */
  datatype ListView = Chips(items: seq<string>) | Note(message: string)

  function ListOrNote(items: seq<string>, placeholder: string): (v: ListView)
    ensures v.Note? <==> items == []
    ensures v.Chips? ==> v.items == items
    ensures v.Note? ==> v.message == placeholder
  {
    if |items| > 0 then Chips(items) else Note(placeholder)
  }

  const NoStrongMatches := "No strong matches found yet."
  const NoWeakMatches := "No weak matches identified."
  const NoMissingSkills := "No missing skills detected! Great job."
  const NoAtsSuggestions := "No specific ATS suggestions found."

  function StrongView(gap: SkillAnalysis): ListView { ListOrNote(gap.strongMatches, NoStrongMatches) }
  function WeakView(gap: SkillAnalysis): ListView { ListOrNote(gap.weakMatches, NoWeakMatches) }
  function MissingView(gap: SkillAnalysis): ListView { ListOrNote(gap.missingSkills, NoMissingSkills) }
  function AtsView(insights: AIInsights): ListView { ListOrNote(insights.atsSuggestions, NoAtsSuggestions) }

  /** For a skill gap computed by the rule engine the weak panel always shows its note, the
      strong panel shows its note exactly when no job-description skill occurs in the resume,
      and the missing panel exactly when every one does. */
  lemma RuleEngineGapViews(resumeText: string, jdSkills: seq<string>)
    ensures var gap := SkillAnalysis(RuleEngine.StrongOf(resumeText, jdSkills), [],
                                     RuleEngine.MissingOf(resumeText, jdSkills));
      WeakView(gap) == Note(NoWeakMatches)
      && (StrongView(gap).Note? <==> forall s | s in jdSkills :: !RuleEngine.IsStrongMatch(resumeText, s))
      && (MissingView(gap).Note? <==> forall s | s in jdSkills :: RuleEngine.IsStrongMatch(resumeText, s))
  {
    RuleEngine.SkillGapMembers(resumeText, jdSkills);
    var strong := RuleEngine.StrongOf(resumeText, jdSkills);
    var missing := RuleEngine.MissingOf(resumeText, jdSkills);
    if strong != [] { assert strong[0] in strong; }
    if missing != [] { assert missing[0] in missing; }
  }

  /** The card frame: green once accepted, red once rejected, plain while undecided. */
  datatype CardFrame = AcceptedFrame | RejectedFrame | PlainFrame

  function FrameOf(r: RewriteSuggestion): (f: CardFrame)
    ensures f == PlainFrame <==> ControlsShown(r)
  {
    match r.accepted
    case Some(true) => AcceptedFrame
    case Some(false) => RejectedFrame
    case None => PlainFrame
  }

  // ----- explanation paragraphs -----

  const ParagraphBreak := "\n\n"

  /** `summary_explanation.split('\n\n')`. */
  function Paragraphs(explanation: string): (ps: seq<string>)
    ensures |ps| >= 1
  {
    Split(explanation, ParagraphBreak)
  }

  /** Joining the paragraphs with the break restores the explanation, and no paragraph holds
      a break of its own. */
  lemma ParagraphsRoundTrip(explanation: string)
    ensures Join(Paragraphs(explanation), ParagraphBreak) == explanation
    ensures forall k | 0 <= k < |Paragraphs(explanation)| :: !Contains(Paragraphs(explanation)[k], ParagraphBreak)
  {
    SplitJoin(explanation, ParagraphBreak);
    forall k | 0 <= k < |Paragraphs(explanation)|
      ensures !Contains(Paragraphs(explanation)[k], ParagraphBreak)
    {
      SplitPieceLacksSeparator(explanation, ParagraphBreak, k);
    }
  }

  // ----- the component state -----

  /** The component's state: the active tab id and the rewrite suggestions. */
  class TabsState {
    var activeTab: string
    var rewrites: seq<RewriteSuggestion>

    predicate Valid()
      reads this
    {
      activeTab in TabIds && IdsArePositions(rewrites)
    }

    /** The overview tab is active and every bullet is an undecided suggestion. */
    constructor(insights: AIInsights)
      ensures activeTab == TabId(Overview)
      ensures rewrites == InitialRewrites(insights.rewrittenBullets)
      ensures Valid()
    {
      activeTab := "overview";
      rewrites := InitialRewrites(insights.rewrittenBullets);
    }

    /** The tab button's `onClick`. */
    method SelectTab(t: Tab)
      requires Valid()
      modifies this
      ensures activeTab == TabId(t) && rewrites == old(rewrites)
      ensures Valid()
    {
      activeTab := TabId(t);
      TabIdsIdentifyTabs();
    }

    /** `handleRewriteAction`. */
    method HandleRewriteAction(id: int, accepted: bool)
      requires Valid()
      modifies this
      ensures rewrites == WithDecision(old(rewrites), id, accepted) && activeTab == old(activeTab)
      ensures Valid()
    {
      rewrites := WithDecision(rewrites, id, accepted);
    }
  }
}
