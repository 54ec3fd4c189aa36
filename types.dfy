/** The records the chat front-end passes around, and its one fixed prompt. */
module Types {
  import opened Wrappers
  import opened Json

  datatype Role = User | Model

  /** One turn of a conversation; `chartData` is set only on replies that carried a chart. */
  datatype Message = Message(id: string, role: Role, text: string, timestamp: int, chartData: Option<JsonValue>)

  /** A file attached to an agent; `content` is absent for files kept as metadata only. */
  datatype UploadedFile = UploadedFile(id: string, name: string, mimeType: string, size: nat, content: Option<string>)

  datatype Agent = Agent(
    id: string,
    name: string,
    description: string,
    systemPrompt: string,
    files: seq<UploadedFile>,
    messages: seq<Message>)

  datatype Category = Category(id: string, name: string, agents: seq<Agent>)

  /** What the reply pipeline hands back: the narrative and, when one was found, the chart. */
  datatype Reply = Reply(text: string, chartData: Option<JsonValue>)

  /** The prompt every agent starts with, piece by piece: who the agent is, how to answer, and the
      JSON block a reply with a chart must end with. */
  const DefaultSystemPrompt: string :=
    PromptRole + PromptContext + PromptStyle + PromptAnalysis + PromptChart + PromptSchemaLead
    + PromptSchemaOpen + PromptSchemaType + PromptSchemaData + PromptSchemaItem + PromptSchemaClose + PromptDownload

  const PromptRole: string := "You are a helpful and efficient administrative AI Agent for the NEUROSME enterprise system. \n"
  const PromptContext: string := "You have access to the documents uploaded by the user in the \"Knowledge Base\".\n"
  const PromptStyle: string := "Always answer professionally and concisely.\n"
  const PromptAnalysis: string :=
    "If the user asks for data analysis (like sales, orders, or performance), simulate the analysis based on the context of the files provided. \n"
  const PromptChart: string :=
    "If the user asks for a chart or visual representation, YOU MUST append a JSON block at the very end of your response.\n"
  const PromptSchemaLead: string := "\nThe JSON block must follow this schema exactly:\n"
  const PromptSchemaOpen: string := "```json\n{\n  \"chart\": {\n"
  const PromptSchemaType: string := "    \"type\": \"pie\", \n    \"title\": \"Chart Title\",\n"
  const PromptSchemaData: string := "    \"data\": [\n      { \"name\": \"Item A\", \"value\": 100 },\n"
  const PromptSchemaItem: string := "      { \"name\": \"Item B\", \"value\": 200 }\n"
  const PromptSchemaClose: string := "    ]\n  }\n}\n```\n"
  const PromptDownload: string := "\nIf asked to download a file, provide a markdown link like: [filename.xlsx](#).\n"
}
