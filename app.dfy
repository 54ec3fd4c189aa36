/**
  The root component: the roster of agents grouped in categories, the id of the
  agent on screen, the lookup of that agent, and the replacement of an agent
  record by the version a panel emits.
 */
module App {
  import opened Wrappers
  import opened Types
  import Lists

  /** `createAgent`: a fresh agent with the default prompt and no files or messages. */
  function CreateAgent(id: string, name: string, description: string): Agent {
    Agent(id, name, description, DefaultSystemPrompt, [], [])
  }

  /** The roster the application starts with. */
  function InitialCategories(): seq<Category> {
    [ChanCategory(), XiaoCategory(), RenCategory(), FaCategory(), CaiCategory()]
  }

  /** Operations and delivery. */
  function ChanCategory(): Category {
    Category("chan", "產 (營運/交付)", [
      CreateAgent("agent-order", "訂單 Agent", "協助處理訂單匯總、分析與狀態追蹤的行政助手。"),
      CreateAgent("agent-workflow", "工作流程 Agent", "優化與監控標準作業程序的智能助手。"),
      CreateAgent("agent-inventory", "庫存/採購 Agent", "監控庫存水位與建議採購計畫。"),
      CreateAgent("agent-quality", "品質/異常 Agent", "追蹤產品品質數據與異常回報分析。")])
  }

  /** Marketing and sales. */
  function XiaoCategory(): Category {
    Category("xiao", "銷 (行銷/業務)", [
      CreateAgent("agent-sales", "銷售數據 Agent", "分析銷售業績與市場趨勢。"),
      CreateAgent("agent-crm", "客戶關係 Agent", "管理客戶資料與互動記錄。")])
  }

  /** Human resources and administration. */
  function RenCategory(): Category {
    Category("ren", "人 (人資/行政)", [CreateAgent("agent-hr", "人資 Agent", "處理人事相關事務。")])
  }

  /** Research and projects. */
  function FaCategory(): Category {
    Category("fa", "發 (研發/專案)", [CreateAgent("agent-rd", "研發 Agent", "協助專案管理與技術文件。")])
  }

  /** Finance and tax. */
  function CaiCategory(): Category {
    Category("cai", "財 (財務/稅務)", [CreateAgent("agent-fin", "財務 Agent", "提供財務報表分析與稅務建議。")])
  }

  /** The agent on screen when the application starts. */
  const InitialActiveAgentId: string := "agent-order"

  /** Every agent of the roster, category by category, in order. */
  function AllAgents(cs: seq<Category>): seq<Agent>
    decreases |cs|
  {
    if cs == [] then [] else cs[0].agents + AllAgents(cs[1..])
  }

  /** The ids of `agents`, in order. */
  function Ids(agents: seq<Agent>): seq<string>
    decreases |agents|
  {
    if agents == [] then [] else [agents[0].id] + Ids(agents[1..])
  }

  // ---------------------------------------------------------------------------
  // Lookup

  /** `agents.find(a => a.id === id)`. */
  function FindById(agents: seq<Agent>, id: string): (r: Option<Agent>)
    ensures r.Some? ==> r.value.id == id
    decreases |agents|
  {
    if agents == [] then None
    else if agents[0].id == id then Some(agents[0])
    else FindById(agents[1..], id)
  }

  /** `p` is the first position of an agent with id `id`. */
  predicate FirstWithId(agents: seq<Agent>, id: string, p: nat) {
    p < |agents| && agents[p].id == id && forall q :: 0 <= q < p ==> agents[q].id != id
  }

  /** `find` returns the first agent with the id, and nothing when there is none. */
  lemma {:induction false} FindByIdSpec(agents: seq<Agent>, id: string)
    ensures FindById(agents, id).None? <==> forall p :: 0 <= p < |agents| ==> agents[p].id != id
    ensures forall p: nat :: FirstWithId(agents, id, p) ==> FindById(agents, id) == Some(agents[p])
    decreases |agents|
  {
    if agents != [] && agents[0].id != id {
      FindByIdSpec(agents[1..], id);
      forall p: nat | FirstWithId(agents, id, p)
        ensures FindById(agents, id) == Some(agents[p])
      {
        assert FirstWithId(agents[1..], id, p - 1);
      }
      if FindById(agents, id).Some? {
        var p :| 0 <= p < |agents[1..]| && agents[1..][p].id == id;
        assert agents[p + 1].id == id;
      }
    }
  }

  /** Looking in two lists one after the other is looking in their concatenation. */
  lemma {:induction false} FindByIdAppend(a: seq<Agent>, b: seq<Agent>, id: string)
    ensures FindById(a + b, id) == if FindById(a, id).Some? then FindById(a, id) else FindById(b, id)
    decreases |a|
  {
    if a == [] {
      assert a + b == b;
    } else {
      assert (a + b)[1..] == a[1..] + b;
      FindByIdAppend(a[1..], b, id);
    }
  }

  /** The loop over the categories, each searched with `find`. */
  function FindInCategories(cs: seq<Category>, id: string): (r: Option<Agent>)
    ensures r.Some? ==> r.value.id == id
    decreases |cs|
  {
    if cs == [] then None
    else if FindById(cs[0].agents, id).Some? then FindById(cs[0].agents, id)
    else FindInCategories(cs[1..], id)
  }

  /** Searching category by category is searching the whole roster in order. */
  lemma {:induction false} FindInCategoriesFlat(cs: seq<Category>, id: string)
    ensures FindInCategories(cs, id) == FindById(AllAgents(cs), id)
    decreases |cs|
  {
    if cs != [] {
      FindInCategoriesFlat(cs[1..], id);
      FindByIdAppend(cs[0].agents, AllAgents(cs[1..]), id);
    }
  }

  /** The roster has a first agent in its first category, the fallback of `activeAgent`. */
  predicate HasFallback(cs: seq<Category>) {
    |cs| > 0 && |cs[0].agents| > 0
  }

  /** `activeAgent`: the first agent with the active id, otherwise the first agent of the first
      category; `None` stands for the `undefined` (or the exception) of an empty roster. */
  function ActiveAgentOf(cs: seq<Category>, activeId: string): Option<Agent> {
    if FindInCategories(cs, activeId).Some? then FindInCategories(cs, activeId)
    else if HasFallback(cs) then Some(cs[0].agents[0])
    else None
  }

  /** The active agent is the first agent of the roster, in category then agent order, that has
      the active id; when no agent has it, it is the first agent of the first category, and it is
      never missing while that agent exists. */
  lemma ActiveAgentSpec(cs: seq<Category>, activeId: string)
    ensures forall p: nat :: FirstWithId(AllAgents(cs), activeId, p) ==> ActiveAgentOf(cs, activeId) == Some(AllAgents(cs)[p])
    ensures (forall p :: 0 <= p < |AllAgents(cs)| ==> AllAgents(cs)[p].id != activeId) ==>
              ActiveAgentOf(cs, activeId) == if HasFallback(cs) then Some(cs[0].agents[0]) else None
  {
    FindInCategoriesFlat(cs, activeId);
    FindByIdSpec(AllAgents(cs), activeId);
  }

  // ---------------------------------------------------------------------------
  // Replacement

  /** `cat.agents.map(a => a.id === updated.id ? updated : a)`. */
  function ReplaceInAgents(agents: seq<Agent>, updated: Agent): (r: seq<Agent>)
    ensures |r| == |agents|
    ensures forall j :: 0 <= j < |agents| && agents[j].id == updated.id ==> r[j] == updated
    ensures forall j :: 0 <= j < |agents| && agents[j].id != updated.id ==> r[j] == agents[j]
  {
    seq(|agents|, j requires 0 <= j < |agents| => if agents[j].id == updated.id then updated else agents[j])
  }

  /** The roster `handleUpdateAgent` builds: every category copied with its agents replaced. */
  function ReplaceAgent(cs: seq<Category>, updated: Agent): (r: seq<Category>)
    ensures |r| == |cs|
    ensures forall i :: 0 <= i < |cs| ==>
              && r[i].id == cs[i].id && r[i].name == cs[i].name
              && r[i].agents == ReplaceInAgents(cs[i].agents, updated)
  {
    seq(|cs|, i requires 0 <= i < |cs| => cs[i].(agents := ReplaceInAgents(cs[i].agents, updated)))
  }

  /** Replacing in each category is replacing in the whole roster. */
  lemma {:induction false} ReplaceFlat(cs: seq<Category>, updated: Agent)
    ensures AllAgents(ReplaceAgent(cs, updated)) == ReplaceInAgents(AllAgents(cs), updated)
    decreases |cs|
  {
    if cs != [] {
      var r := ReplaceAgent(cs, updated);
      assert r[1..] == ReplaceAgent(cs[1..], updated);
      ReplaceFlat(cs[1..], updated);
    }
  }

  /** The replacement touches the agents with the updated id and nothing else: the categories keep
      their ids, names and order, each keeps its number of agents, every agent keeps its place and
      its id, and the agents with another id are left as they were. */
  lemma ReplaceAgentSpec(cs: seq<Category>, updated: Agent)
    ensures var r := ReplaceAgent(cs, updated);
            && |AllAgents(r)| == |AllAgents(cs)|
            && Ids(AllAgents(r)) == Ids(AllAgents(cs))
            && forall p :: 0 <= p < |AllAgents(cs)| ==>
                 AllAgents(r)[p] == if AllAgents(cs)[p].id == updated.id then updated else AllAgents(cs)[p]
  {
    ReplaceFlat(cs, updated);
    ReplaceKeepsIds(AllAgents(cs), updated);
  }

  /** Replacing by id keeps the ids. */
  lemma {:induction false} ReplaceKeepsIds(agents: seq<Agent>, updated: Agent)
    ensures Ids(ReplaceInAgents(agents, updated)) == Ids(agents)
    decreases |agents|
  {
    if agents != [] {
      assert ReplaceInAgents(agents, updated)[1..] == ReplaceInAgents(agents[1..], updated);
      ReplaceKeepsIds(agents[1..], updated);
    }
  }

  /** An update for an id found nowhere leaves the roster as it was. */
  lemma ReplaceAbsent(cs: seq<Category>, updated: Agent)
    requires forall i, j :: 0 <= i < |cs| && 0 <= j < |cs[i].agents| ==> cs[i].agents[j].id != updated.id
    ensures ReplaceAgent(cs, updated) == cs
  {
    var r := ReplaceAgent(cs, updated);
    forall i | 0 <= i < |cs|
      ensures r[i] == cs[i]
    {
      assert r[i].agents == cs[i].agents;
    }
  }

  /** Emitting the same record twice is emitting it once. */
  lemma ReplaceIdempotent(cs: seq<Category>, updated: Agent)
    ensures ReplaceAgent(ReplaceAgent(cs, updated), updated) == ReplaceAgent(cs, updated)
  {
    var r := ReplaceAgent(cs, updated);
    var r2 := ReplaceAgent(r, updated);
    forall i | 0 <= i < |cs|
      ensures r2[i] == r[i]
    {
      assert r2[i].agents == r[i].agents;
    }
  }

  /** After an update, the agent with that id is the updated record. */
  lemma ReplacedIsFound(cs: seq<Category>, updated: Agent)
    requires exists p :: 0 <= p < |AllAgents(cs)| && AllAgents(cs)[p].id == updated.id
    ensures ActiveAgentOf(ReplaceAgent(cs, updated), updated.id) == Some(updated)
  {
    var r := ReplaceAgent(cs, updated);
    ReplaceFlat(cs, updated);
    FindInCategoriesFlat(r, updated.id);
    FirstOfReplaced(AllAgents(cs), updated);
  }

  /** In a list where every agent with the updated id is the updated record, `find` returns it. */
  lemma {:induction false} FirstOfReplaced(agents: seq<Agent>, updated: Agent)
    requires exists p :: 0 <= p < |agents| && agents[p].id == updated.id
    ensures FindById(ReplaceInAgents(agents, updated), updated.id) == Some(updated)
    decreases |agents|
  {
    var r := ReplaceInAgents(agents, updated);
    if agents[0].id != updated.id {
      var p :| 0 <= p < |agents| && agents[p].id == updated.id;
      assert agents[1..][p - 1].id == updated.id;
      assert r[1..] == ReplaceInAgents(agents[1..], updated);
      FirstOfReplaced(agents[1..], updated);
    }
  }

  /** After a replacement, looking up the updated id gives the updated record (when the id was
      there before), and looking up any other id gives what it gave before. */
  lemma FindAfterReplace(cs: seq<Category>, id: string, updated: Agent)
    ensures FindInCategories(ReplaceAgent(cs, updated), id) ==
              if updated.id == id && FindInCategories(cs, id).Some? then Some(updated) else FindInCategories(cs, id)
  {
    ReplaceFlat(cs, updated);
    FindInCategoriesFlat(cs, id);
    FindInCategoriesFlat(ReplaceAgent(cs, updated), id);
    FindInReplaced(AllAgents(cs), id, updated);
  }

  /** `FindAfterReplace` on one list of agents. */
  lemma {:induction false} FindInReplaced(agents: seq<Agent>, id: string, updated: Agent)
    ensures FindById(ReplaceInAgents(agents, updated), id) ==
              if updated.id == id && FindById(agents, id).Some? then Some(updated) else FindById(agents, id)
    decreases |agents|
  {
    if agents != [] {
      assert ReplaceInAgents(agents, updated)[1..] == ReplaceInAgents(agents[1..], updated);
      FindInReplaced(agents[1..], id, updated);
    }
  }

  // ---------------------------------------------------------------------------
  // The initial roster

  /** The ids of two lists follow each other. */
  lemma {:induction false} IdsAppend(a: seq<Agent>, b: seq<Agent>)
    ensures Ids(a + b) == Ids(a) + Ids(b)
    decreases |a|
  {
    if a == [] {
      assert a + b == b;
    } else {
      assert (a + b)[1..] == a[1..] + b;
      IdsAppend(a[1..], b);
    }
  }

  /** The ids of five categories, category by category. */
  lemma IdsOfFive(cs: seq<Category>)
    requires |cs| == 5
    ensures Ids(AllAgents(cs)) == Ids(cs[0].agents) + (Ids(cs[1].agents) + (Ids(cs[2].agents) + (Ids(cs[3].agents) + Ids(cs[4].agents))))
  {
    IdsAppend(cs[0].agents, AllAgents(cs[1..]));
    IdsAppend(cs[1].agents, AllAgents(cs[2..]));
    IdsAppend(cs[2].agents, AllAgents(cs[3..]));
    IdsAppend(cs[3].agents, AllAgents(cs[4..]));
    assert AllAgents(cs[4..]) == cs[4].agents + [];
    Lists.AppendNil(cs[4].agents);
  }

  /** An agent as `createAgent` makes it: the default prompt, no files, no messages. */
  predicate IsFresh(a: Agent) {
    a.systemPrompt == DefaultSystemPrompt && a.files == [] && a.messages == []
  }

  /** Every agent of `c` is fresh. */
  predicate AllFresh(c: Category) {
    forall j :: 0 <= j < |c.agents| ==> IsFresh(c.agents[j])
  }

  lemma ChanRoster()
    ensures Ids(ChanCategory().agents) == ["agent-order", "agent-workflow", "agent-inventory", "agent-quality"]
    ensures AllFresh(ChanCategory())
  {
    IdsAt(ChanCategory().agents);
  }

  lemma XiaoRoster()
    ensures Ids(XiaoCategory().agents) == ["agent-sales", "agent-crm"]
    ensures AllFresh(XiaoCategory())
  {
    IdsAt(XiaoCategory().agents);
  }

  lemma RenRoster()
    ensures Ids(RenCategory().agents) == ["agent-hr"]
    ensures AllFresh(RenCategory())
  {
    IdsAt(RenCategory().agents);
  }

  lemma FaRoster()
    ensures Ids(FaCategory().agents) == ["agent-rd"]
    ensures AllFresh(FaCategory())
  {
    IdsAt(FaCategory().agents);
  }

  lemma CaiRoster()
    ensures Ids(CaiCategory().agents) == ["agent-fin"]
    ensures AllFresh(CaiCategory())
  {
    IdsAt(CaiCategory().agents);
  }

  /** The ids of the initial agents, in roster order. */
  const InitialIds: seq<string> :=
    ["agent-order", "agent-workflow", "agent-inventory", "agent-quality", "agent-sales",
     "agent-crm", "agent-hr", "agent-rd", "agent-fin"]

  /** The initial ids, category by category. */
  lemma InitialIdsSplit()
    ensures InitialIds == ["agent-order", "agent-workflow", "agent-inventory", "agent-quality"] +
                          (["agent-sales", "agent-crm"] + (["agent-hr"] + (["agent-rd"] + ["agent-fin"])))
  {
  }

  /** Five categories holding nine agents, with these ids in this order. */
  lemma InitialRoster()
    ensures |InitialCategories()| == 5
    ensures Ids(AllAgents(InitialCategories())) == InitialIds
  {
    IdsOfFive(InitialCategories());
    InitialIdsSplit();
    ChanRoster();
    XiaoRoster();
    RenRoster();
    FaRoster();
    CaiRoster();
  }

  /** A roster the root component can hold: it has the fallback agent, and it holds the nine
      initial agents' ids in their order, so every id names one agent. */
  predicate RosterValid(cs: seq<Category>) {
    HasFallback(cs) && Ids(AllAgents(cs)) == InitialIds
  }

  /** The initial roster is one the root component can hold. */
  lemma InitialValid()
    ensures RosterValid(InitialCategories())
  {
    InitialRoster();
  }

  /** The initial ids are pairwise distinct. */
  lemma InitialIdsDistinct()
    ensures forall p, q :: 0 <= p < q < |InitialIds| ==> InitialIds[p] != InitialIds[q]
  {
    forall p, q | 0 <= p < q < |InitialIds|
      ensures InitialIds[p] != InitialIds[q]
    {
      if |InitialIds[p]| == |InitialIds[q]| {
        assert InitialIds[p][6] != InitialIds[q][6];
      }
    }
  }

  /** The ids list the agents' ids position by position. */
  lemma {:induction false} IdsAt(agents: seq<Agent>)
    ensures |Ids(agents)| == |agents|
    ensures forall p :: 0 <= p < |agents| ==> Ids(agents)[p] == agents[p].id
    decreases |agents|
  {
    if agents != [] {
      IdsAt(agents[1..]);
    }
  }

  /** A roster with the initial ids holds nine agents, no two of them with the same id, so each
      of those ids names exactly one agent. */
  lemma InitialIdsUnique(cs: seq<Category>)
    requires Ids(AllAgents(cs)) == InitialIds
    ensures |AllAgents(cs)| == 9
    ensures forall p, q :: 0 <= p < q < |AllAgents(cs)| ==> AllAgents(cs)[p].id != AllAgents(cs)[q].id
  {
    IdsAt(AllAgents(cs));
    InitialIdsDistinct();
  }

  /** What holds of every agent of every category holds of every agent of the roster. */
  lemma {:induction false} EveryAgent(cs: seq<Category>, holds: Agent -> bool)
    requires forall i, j :: 0 <= i < |cs| && 0 <= j < |cs[i].agents| ==> holds(cs[i].agents[j])
    ensures forall p :: 0 <= p < |AllAgents(cs)| ==> holds(AllAgents(cs)[p])
    decreases |cs|
  {
    if cs != [] {
      EveryAgent(cs[1..], holds);
      forall p | 0 <= p < |AllAgents(cs)|
        ensures holds(AllAgents(cs)[p])
      {
        if p < |cs[0].agents| {
          assert AllAgents(cs)[p] == cs[0].agents[p];
        } else {
          assert AllAgents(cs)[p] == AllAgents(cs[1..])[p - |cs[0].agents|];
        }
      }
    }
  }

  /** Every initial agent has the default prompt and no files or messages. */
  lemma InitialAgentsFresh()
    ensures forall p :: 0 <= p < |AllAgents(InitialCategories())| ==> IsFresh(AllAgents(InitialCategories())[p])
  {
    ChanRoster();
    XiaoRoster();
    RenRoster();
    FaRoster();
    CaiRoster();
    EveryAgent(InitialCategories(), IsFresh);
  }

  /** The initial active id picks the first agent of the first category. */
  lemma InitialActive()
    ensures ActiveAgentOf(InitialCategories(), InitialActiveAgentId) == Some(InitialCategories()[0].agents[0])
  {
  }

  // ---------------------------------------------------------------------------
  // The state

  /** The two refs of the root component. */
  class Store {
    var categories: seq<Category>
    var activeAgentId: string

    /** The roster is one the root component can hold, so the active agent is always defined and
        every id names one agent. */
    predicate Valid()
      reads this
    {
      RosterValid(categories)
    }

    constructor()
      ensures categories == InitialCategories() && activeAgentId == InitialActiveAgentId
      ensures Valid()
    {
      categories := InitialCategories();
      activeAgentId := InitialActiveAgentId;
      InitialValid();
    }

    /** `setActiveAgent`: only the active id changes. */
    method SetActiveAgent(id: string)
      modifies this
      ensures activeAgentId == id && categories == old(categories)
      ensures old(Valid()) ==> Valid()
    {
      activeAgentId := id;
    }

    /** `handleUpdateAgent`: the roster is replaced by a copy with the updated record in place. */
    method HandleUpdateAgent(updated: Agent)
      modifies this
      ensures categories == ReplaceAgent(old(categories), updated) && activeAgentId == old(activeAgentId)
      ensures old(Valid()) ==> Valid()
    {
      ReplaceAgentSpec(categories, updated);
      categories := ReplaceAgent(categories, updated);
    }

    /** `activeAgent`: the categories are searched in order, and the first agent with the active id
        is returned; otherwise the fallback. */
    method ActiveAgent() returns (agent: Option<Agent>)
      ensures agent == ActiveAgentOf(categories, activeAgentId)
      ensures Valid() ==> agent.Some?
    {
      var i := 0;
      while i < |categories|
        invariant 0 <= i <= |categories|
        invariant FindInCategories(categories, activeAgentId) == FindInCategories(categories[i..], activeAgentId)
      {
        var found := FindById(categories[i].agents, activeAgentId);
        if found.Some? {
          return found;
        }
        assert categories[i..][1..] == categories[i + 1..];
        i := i + 1;
      }
      if HasFallback(categories) {
        return Some(categories[0].agents[0]);
      }
      return None;
    }
  }
}
