/**
  `sendMessageToGemini`: the knowledge-base text built from an agent's files, the
  role-tagged turns sent to the model, the canned replies used when no API key is
  configured, and the fixed apology that replaces any failure of the call. The
  model call itself is a parameter, `complete`, and `JSON.parse` is `parse`.
 */
module GeminiService {
  import opened Wrappers
  import opened Strings
  import opened Json
  import opened Types
  import opened ChartParser
  import Lists

  /** The model used when the caller names none. */
  const DefaultModel: string := "gemini-3-flash-preview"
  /** Every request is sent with this temperature. */
  const Temperature: real := 0.4
  /** How many characters of a file's content reach the model. */
  const ContentLimit: nat := 50000

  const KnowledgeHeader: string := "\n\n=== UPLOADED KNOWLEDGE BASE ===\n"
  const KnowledgeFooter: string := "\n=== END KNOWLEDGE BASE ===\n"
  const KnowledgeInstructions: string :=
    "Instructions: You are to use the data provided in the 'UPLOADED KNOWLEDGE BASE' above to answer the user's questions. Analyze the data row by row if necessary."
  /** The reply that stands in for any failure of the call. */
  const Apology: string :=
    "I apologize, but I encountered an error connecting to the AI service. Please check your API key or try again later."

  /** One entry of `contents`: a role and a single text part. */
  datatype Turn = Turn(role: Role, text: string)

  /** What `generateContent` is called with. */
  datatype GenerateRequest = GenerateRequest(model: string, contents: seq<Turn>, systemInstruction: string, temperature: real)

  /** How the call ends: with a response whose `text` may be missing, or by throwing. */
  datatype CallOutcome = Answered(text: Option<string>) | Failed

  // ---------------------------------------------------------------------------
  // The knowledge base

  /** `file.content` is truthy: present and not empty. */
  predicate HasContent(f: UploadedFile) {
    f.content.Some? && f.content.value != ""
  }

  /** The section one file contributes: the start of its content, or a stub with its size. */
  function FileSection(f: UploadedFile): string {
    if HasContent(f) then
      "\n--- File: " + f.name + " ---\n" + Substring(f.content.value, 0, ContentLimit) + "\n"
    else
      "\n--- File: " + f.name + " (Binary Content - Metadata Only) ---\nSize: " + DecimalString(f.size) + " bytes\n"
  }

  /** The sections of `files`, in attachment order. */
  function FileSections(files: seq<UploadedFile>): string
    decreases |files|
  {
    if files == [] then "" else FileSections(files[..|files| - 1]) + FileSection(files[|files| - 1])
  }

  /** The text appended to the system instruction: nothing without files, otherwise the sections
      between the header and the footer, followed by the instruction sentence. */
  function FileContext(files: seq<UploadedFile>): string {
    if |files| > 0 then KnowledgeHeader + FileSections(files) + KnowledgeFooter + KnowledgeInstructions else ""
  }

  /** The loop over `files.forEach`, appending one section per file. */
  method BuildFileContext(files: seq<UploadedFile>) returns (ctx: string)
    ensures ctx == FileContext(files)
  {
    ctx := "";
    if |files| > 0 {
      ctx := ctx + KnowledgeHeader;
      var i := 0;
      while i < |files|
        invariant 0 <= i <= |files|
        invariant ctx == KnowledgeHeader + FileSections(files[..i])
      {
        assert files[..i + 1][..i] == files[..i];
        Lists.AppendAssoc(KnowledgeHeader, FileSections(files[..i]), FileSection(files[i]));
        ctx := ctx + FileSection(files[i]);
        i := i + 1;
      }
      assert files[..i] == files;
      ctx := ctx + KnowledgeFooter;
      ctx := ctx + KnowledgeInstructions;
    }
  }

  /** The sections of two file lists follow each other. */
  lemma {:induction false} FileSectionsAppend(a: seq<UploadedFile>, b: seq<UploadedFile>)
    ensures FileSections(a + b) == FileSections(a) + FileSections(b)
    decreases |b|
  {
    if b == [] {
      assert a + b == a;
      Lists.AppendNil(FileSections(a));
    } else {
      var b' := b[..|b| - 1];
      assert (a + b)[..|a + b| - 1] == a + b';
      FileSectionsAppend(a, b');
      Lists.AppendAssoc(FileSections(a), FileSections(b'), FileSection(b[|b| - 1]));
    }
  }

  /** The files before, at and after position `i` contribute their sections in that order. */
  lemma FileSectionAt(files: seq<UploadedFile>, i: nat)
    requires i < |files|
    ensures FileSections(files) ==
            FileSections(files[..i]) + FileSection(files[i]) + FileSections(files[i + 1..])
  {
    var a, f, b := files[..i], files[i], files[i + 1..];
    Lists.SplitAt(files, i);
    FileSectionsAppend(a + [f], b);
    FileSectionsAppend(a, [f]);
    assert [f][..0] == [];
    Lists.NilAppend(FileSection(f));
  }

  /** Without files the instruction is sent as it is; with files it gets the header, the sections,
      the footer and the instruction sentence. */
  lemma FileContextShape(files: seq<UploadedFile>)
    ensures FileContext(files) == "" <==> files == []
    ensures files != [] ==>
              && FileContext(files)[..|KnowledgeHeader|] == KnowledgeHeader
              && FileContext(files)[|FileContext(files)| - |KnowledgeFooter + KnowledgeInstructions|..]
                 == KnowledgeFooter + KnowledgeInstructions
  {
    if files != [] {
      Lists.AppendAssoc(KnowledgeHeader + FileSections(files), KnowledgeFooter, KnowledgeInstructions);
      Lists.AppendAssoc(KnowledgeHeader, FileSections(files), KnowledgeFooter + KnowledgeInstructions);
    }
  }

  /** A file with content contributes its name and the first `ContentLimit` characters of its
      content, or all of it when it is shorter. */
  lemma ContentSection(f: UploadedFile)
    requires HasContent(f)
    ensures exists preview ::
              && FileSection(f) == "\n--- File: " + f.name + " ---\n" + preview + "\n"
              && preview <= f.content.value
              && |preview| == if |f.content.value| < ContentLimit then |f.content.value| else ContentLimit
  {
    SubstringPrefix(f.content.value, ContentLimit);
  }

  /** A file without content contributes a stub that shows its name and its size, which can be read
      back from the digits. */
  lemma StubSection(f: UploadedFile)
    requires !HasContent(f)
    ensures exists digits ::
              && FileSection(f) == "\n--- File: " + f.name + " (Binary Content - Metadata Only) ---\nSize: " + digits + " bytes\n"
              && (forall i :: 0 <= i < |digits| ==> '0' <= digits[i] <= '9')
              && DecimalValue(digits) == f.size
  {
    DecimalRoundTrip(f.size);
  }

  /** A stub depends on the name and the size only: two files without content that agree on those
      contribute the same text, whatever else they hold. */
  lemma StubIgnoresContent(f: UploadedFile, g: UploadedFile)
    requires !HasContent(f) && !HasContent(g) && f.name == g.name && f.size == g.size
    ensures FileSection(f) == FileSection(g)
  {
  }

  // ---------------------------------------------------------------------------
  // The turns sent to the model

  /** `{ role: msg.role, parts: [{ text: msg.text }] }` */
  function TurnOf(m: Message): Turn {
    Turn(m.role, m.text)
  }

  /** The history as turns, in order, followed by the new message as a user turn. */
  function ContentsFor(history: seq<Message>, newMessage: string): (r: seq<Turn>)
    ensures |r| == |history| + 1
    ensures forall i :: 0 <= i < |history| ==> r[i] == Turn(history[i].role, history[i].text)
    ensures r[|history|] == Turn(User, newMessage)
  {
    if history == [] then [Turn(User, newMessage)]
    else [TurnOf(history[0])] + ContentsFor(history[1..], newMessage)
  }

  /** `history.map(...)` followed by `contents.push(...)`. */
  method BuildContents(history: seq<Message>, newMessage: string) returns (contents: seq<Turn>)
    ensures contents == ContentsFor(history, newMessage)
  {
    contents := [];
    var i := 0;
    while i < |history|
      invariant 0 <= i <= |history|
      invariant |contents| == i
      invariant forall k :: 0 <= k < i ==> contents[k] == TurnOf(history[k])
    {
      contents := contents + [TurnOf(history[i])];
      i := i + 1;
    }
    contents := contents + [Turn(User, newMessage)];
    ContentsDetermined(history, newMessage, contents);
  }

  /** The turns are determined by their length and their entries. */
  lemma ContentsDetermined(history: seq<Message>, newMessage: string, contents: seq<Turn>)
    requires |contents| == |history| + 1
    requires forall k :: 0 <= k < |history| ==> contents[k] == TurnOf(history[k])
    requires contents[|history|] == Turn(User, newMessage)
    ensures contents == ContentsFor(history, newMessage)
  {
    var r := ContentsFor(history, newMessage);
    forall k | 0 <= k < |contents|
      ensures contents[k] == r[k]
    {
    }
  }

  // ---------------------------------------------------------------------------
  // The canned replies

  const MockChartText: string :=
    "根據您上傳的訂單文件分析，過去一週的銷售數據顯示 **SKU-A01 (極致工學椅)** 是銷售冠軍，總營業額為 **NT$ 1,250,000**。\n\n緊隨其後的是 SKU-B05 和 SKU-C02。我已經為您整理了前三名的銷售佔比圖表如下。"
  const MockDefaultText: string :=
    "收到您的訊息。作為訂單 Agent，我可以協助處理訂單匯總、庫存查詢以及生成銷售報表。請問還有什麼具體需求嗎？"

  /** One slice of the canned pie chart. */
  function Slice(name: string, value: real, fill: string): JsonValue {
    JObject([("name", JString(name)), ("value", JNumber(value)), ("fill", JString(fill))])
  }

  /** The canned chart: the three best-selling SKUs as a pie. */
  const MockChart: JsonValue :=
    JObject([
      ("type", JString("pie")),
      ("title", JString("Top 3 Best Selling SKUs")),
      ("data", JArray([
        Slice("SKU-A01 工學椅", 1250000.0, "#3B82F6"),
        Slice("SKU-B05 升降桌", 850000.0, "#10B981"),
        Slice("SKU-C02 螢幕架", 450000.0, "#F59E0B")]))])

  /** The message asks about sales, in one of the three spellings the mock recognises. */
  predicate AsksForSales(msg: string) {
    Includes(msg, "最好") || Includes(msg, "sku") || Includes(msg, "sales")
  }

  /** `mockResponse`: the sales chart when the message asks for it, a greeting otherwise. */
  function MockResponse(msg: string): (r: Reply)
    ensures r.chartData.Some? <==> AsksForSales(msg)
  {
    if AsksForSales(msg) then Reply(MockChartText, Some(MockChart)) else Reply(MockDefaultText, None)
  }

  /** The chart comes back exactly when one of the three keywords occurs in the message, as typed:
      the match is case-sensitive. */
  lemma MockKeywords(msg: string)
    ensures MockResponse(msg).chartData.Some? <==>
            exists i: nat :: Occurs(msg, "最好", i) || Occurs(msg, "sku", i) || Occurs(msg, "sales", i)
    ensures MockResponse(msg).chartData.Some? ==> MockResponse(msg) == Reply(MockChartText, Some(MockChart))
    ensures MockResponse(msg).chartData.None? ==> MockResponse(msg) == Reply(MockDefaultText, None)
  {
    IncludesSpec(msg, "最好");
    IncludesSpec(msg, "sku");
    IncludesSpec(msg, "sales");
  }

  /** A message with no `s` and no `最` gets the greeting. */
  lemma MockGreets(msg: string)
    requires 's' !in msg && '最' !in msg
    ensures MockResponse(msg) == Reply(MockDefaultText, None)
  {
    MissingCharExcludes(msg, "最好", 0);
    MissingCharExcludes(msg, "sku", 0);
    MissingCharExcludes(msg, "sales", 0);
  }

  /** The canned chart is a pie of three slices, and it is truthy, as the chart of a reply must be. */
  lemma MockChartShape()
    ensures Truthy(Some(MockChart))
    ensures Member(MockChart, "type") == Some(JString("pie"))
    ensures Member(MockChart, "title") == Some(JString("Top 3 Best Selling SKUs"))
    ensures Member(MockChart, "data").Some? && Member(MockChart, "data").value.JArray?
    ensures |Member(MockChart, "data").value.items| == 3
  {
    var ms := MockChart.members;
    assert "data"[0] != "type"[0] && "data"[0] != "title"[0] && "title"[1] != "type"[1];
    assert LastBinding(ms[..2], "type") == LastBinding(ms[..1], "type");
    assert LastBinding(ms[..1], "title") == LastBinding(ms[..0], "title");
  }

  // ---------------------------------------------------------------------------
  // The call

  /** The request sent for a message: the chosen model, the turns, the instruction with the
      knowledge base appended, and the fixed temperature. */
  function RequestFor(history: seq<Message>, newMessage: string, systemInstruction: string,
                      files: seq<UploadedFile>, model: string): (r: GenerateRequest)
    ensures r.model == model && r.temperature == Temperature
    ensures r.contents == ContentsFor(history, newMessage)
    ensures files == [] ==> r.systemInstruction == systemInstruction
    ensures files != [] ==> |r.systemInstruction| > |systemInstruction| && r.systemInstruction[..|systemInstruction|] == systemInstruction
  {
    GenerateRequest(model, ContentsFor(history, newMessage), systemInstruction + FileContext(files), Temperature)
  }

  /** The reply for the outcome of the call: `response.text || ""` split by the chart parser, or
      the apology when the call threw. */
  function ReplyFromOutcome(outcome: CallOutcome, parse: string -> Option<JsonValue>): (r: Reply)
    ensures outcome.Failed? ==> r == Reply(Apology, None)
    ensures outcome.Answered? && r.chartData.None? ==> r.text == outcome.text.GetOr("")
  {
    match outcome
    case Failed => Reply(Apology, None)
    case Answered(text) => ParseResponseForChart(text.GetOr(""), parse)
  }

  /** `sendMessageToGemini`. Without an API key it answers from the mock and sends nothing;
      otherwise it builds the request, sends it once, and turns the outcome into a reply. `sent`
      is the request that went out. */
  method SendMessageToGemini(hasApiKey: bool, history: seq<Message>, newMessage: string, systemInstruction: string,
                             files: seq<UploadedFile>, model: string,
                             complete: GenerateRequest -> CallOutcome, parse: string -> Option<JsonValue>)
    returns (reply: Reply, sent: Option<GenerateRequest>)
    ensures !hasApiKey ==> sent == None && reply == MockResponse(newMessage)
    ensures hasApiKey ==> sent == Some(RequestFor(history, newMessage, systemInstruction, files, model))
    ensures hasApiKey ==> reply == ReplyFromOutcome(complete(sent.value), parse)
  {
    if !hasApiKey {
      return MockResponse(newMessage), None;
    }
    var fileContext := BuildFileContext(files);
    var contents := BuildContents(history, newMessage);
    var fullSystemInstruction := systemInstruction + fileContext;
    var request := GenerateRequest(model, contents, fullSystemInstruction, Temperature);
    var outcome := complete(request);
    reply := ReplyFromOutcome(outcome, parse);
    sent := Some(request);
  }

  /** A chart block at the end of the model's answer comes back as the chart, with the narrative
      before it as the text. */
  lemma AnsweredWithChart(narrative: string, body: string, parse: string -> Option<JsonValue>)
    requires IsTrimmed(narrative) && '`' !in narrative && '`' !in body && Includes(body, ChartKey)
    requires parse("{" + body + "}").Some? && Truthy(Member(parse("{" + body + "}").value, "chart"))
    ensures ReplyFromOutcome(Answered(Some(ChartBlock(narrative, body))), parse) ==
            Reply(narrative, Member(parse("{" + body + "}").value, "chart"))
  {
    ChartBlockRoundTrip(narrative, body, parse);
  }

  /** An answer without a backquote is passed on as it is, and a missing answer becomes the empty
      text. */
  lemma AnsweredPlain(text: Option<string>, parse: string -> Option<JsonValue>)
    requires '`' !in text.GetOr("")
    ensures ReplyFromOutcome(Answered(text), parse) == Reply(text.GetOr(""), None)
  {
    NoFenceNoChart(text.GetOr(""), parse);
  }
}
