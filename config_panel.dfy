/**
  The configuration panel of one agent. Its three handlers never change the agent in place:
  each builds a new agent record and emits it, and the root component puts the record into
  the roster with `App.ReplaceAgent`. A handler that emits nothing is `None` here.
 */
module ConfigPanel {
  import opened Wrappers
  import opened Strings
  import opened Types
  import Lists
  import App

  /** What the file input reports about a file the user picked. */
  datatype SelectedFile = SelectedFile(name: string, mimeType: string, size: nat)

  /** The record made for a picked file: its id is the clock reading as a decimal string, and it
      carries no content. */
  function NewFileRecord(file: SelectedFile, now: nat): UploadedFile {
    UploadedFile(DecimalString(now), file.name, file.mimeType, file.size, None)
  }

  /** `handleFileUpload`: with no file picked nothing is emitted; otherwise the agent is emitted
      with the record of the first picked file added after its files. `now` is the clock. */
  function HandleFileUpload(agent: Agent, selected: seq<SelectedFile>, now: nat): (r: Option<Agent>)
    ensures r.None? <==> selected == []
    ensures r.Some? ==>
              && |r.value.files| == |agent.files| + 1
              && r.value.files[..|agent.files|] == agent.files
              && r.value.files[|agent.files|].name == selected[0].name
              && r.value.files[|agent.files|].mimeType == selected[0].mimeType
              && r.value.files[|agent.files|].size == selected[0].size
              && r.value.files[|agent.files|].content.None?
              && r.value.(files := agent.files) == agent
  {
    if selected == [] then None
    else Some(agent.(files := agent.files + [NewFileRecord(selected[0], now)]))
  }

  /** The test `f.id !== fileId`. */
  function KeepFile(fileId: string): UploadedFile -> bool {
    (f: UploadedFile) => f.id != fileId
  }

  /** `removeFile`: the agent is emitted with the files whose id differs from `fileId`. */
  function RemoveFile(agent: Agent, fileId: string): (r: Agent)
    ensures r.(files := agent.files) == agent
    ensures forall i :: 0 <= i < |r.files| ==> r.files[i].id != fileId && r.files[i] in agent.files
    ensures forall i :: 0 <= i < |agent.files| && agent.files[i].id != fileId ==> agent.files[i] in r.files
  {
    agent.(files := Lists.Filter(agent.files, KeepFile(fileId)))
  }

  /** `updatePrompt`: the agent is emitted with the edited prompt. */
  function UpdatePrompt(agent: Agent, value: string): (r: Agent)
    ensures r.systemPrompt == value
    ensures r.(systemPrompt := agent.systemPrompt) == agent
  {
    agent.(systemPrompt := value)
  }

  // ---------------------------------------------------------------------------
  // Properties

  /** Only the first picked file is recorded; the others are ignored. */
  lemma UploadFirstOnly(agent: Agent, first: SelectedFile, rest: seq<SelectedFile>, now: nat)
    ensures HandleFileUpload(agent, [first] + rest, now) == HandleFileUpload(agent, [first], now)
  {
  }

  /** Two uploads add two records, in the order of the uploads. */
  lemma UploadTwice(agent: Agent, f: SelectedFile, g: SelectedFile, now: nat, later: nat)
    ensures var once := HandleFileUpload(agent, [f], now).value;
            HandleFileUpload(once, [g], later).value.files
              == agent.files + [NewFileRecord(f, now), NewFileRecord(g, later)]
  {
    var once := HandleFileUpload(agent, [f], now).value;
    assert once.files == agent.files + [NewFileRecord(f, now)];
    Lists.AppendAssoc(agent.files, [NewFileRecord(f, now)], [NewFileRecord(g, later)]);
  }

  /** Removing the file just uploaded, when no earlier file has its id, gives the files back. */
  lemma RemoveUndoesUpload(agent: Agent, f: SelectedFile, now: nat)
    requires forall i :: 0 <= i < |agent.files| ==> agent.files[i].id != DecimalString(now)
    ensures RemoveFile(HandleFileUpload(agent, [f], now).value, DecimalString(now)) == agent
  {
    var record := NewFileRecord(f, now);
    Lists.FilterAppend(agent.files, [record], KeepFile(DecimalString(now)));
    assert Lists.Filter([record], KeepFile(DecimalString(now))) == [];
    Lists.AppendNil(agent.files);
  }

  /** A file with another id survives the removal in its place: what comes before it and what
      comes after it are filtered separately and it stays between them. */
  lemma RemoveKeepsOrder(agent: Agent, before: seq<UploadedFile>, f: UploadedFile, after: seq<UploadedFile>, fileId: string)
    requires agent.files == before + [f] + after
    ensures RemoveFile(agent, fileId).files ==
              Lists.Filter(before, KeepFile(fileId)) + (if f.id != fileId then [f] else []) + Lists.Filter(after, KeepFile(fileId))
  {
    Lists.FilterAround(before, f, after, KeepFile(fileId));
  }

  /** An id that no file has leaves the files as they were. */
  lemma RemoveAbsent(agent: Agent, fileId: string)
    requires forall i :: 0 <= i < |agent.files| ==> agent.files[i].id != fileId
    ensures RemoveFile(agent, fileId) == agent
  {
  }

  /** Removing twice is removing once. */
  lemma RemoveIdempotent(agent: Agent, fileId: string)
    ensures RemoveFile(RemoveFile(agent, fileId), fileId) == RemoveFile(agent, fileId)
  {
  }

  /** Only the last prompt edit counts. */
  lemma UpdatePromptLastWins(agent: Agent, first: string, second: string)
    ensures UpdatePrompt(UpdatePrompt(agent, first), second) == UpdatePrompt(agent, second)
  {
  }

  /** Every record the panel emits keeps the agent's id, so once the root component has put it in
      the roster it is the agent found under that id. */
  lemma EmittedIsFound(cs: seq<Category>, agent: Agent, emitted: Agent)
    requires exists p :: 0 <= p < |App.AllAgents(cs)| && App.AllAgents(cs)[p].id == agent.id
    requires || (exists selected, now :: HandleFileUpload(agent, selected, now) == Some(emitted))
             || (exists fileId :: RemoveFile(agent, fileId) == emitted)
             || (exists value :: UpdatePrompt(agent, value) == emitted)
    ensures App.ActiveAgentOf(App.ReplaceAgent(cs, emitted), agent.id) == Some(emitted)
  {
    assert emitted.id == agent.id;
    App.ReplacedIsFound(cs, emitted);
  }
}
