/**
  The summariser (src/video_gpt.rs): picks the model for a level, builds
  the two-message request around the transcript, and takes the text of
  the reply's first content block. The transcript service and the model
  API are collaborators given as functions from request to reply.
 */
module VideoGpt {
  import opened Outcomes

  /** Rust's `u32`. */
  newtype u32 = x: int | 0 <= x < 0x1_0000_0000

  const SonnetModel: string := "claude-sonnet-4-20250514"
  const HaikuModel: string := "claude-3-5-haiku-latest"
  /** The cap on the reply's length, in tokens. */
  const MaxTokens: u32 := 64000

  /**
    The fixed instruction sent ahead of every transcript. Its wording is
    data, not logic; this constant stands in for the template of
    src/video_gpt.rs.
   */
  const SystemPrompt: string := "<system prompt: the five-section Markdown guide template>"

  const TranscriptOpen: string := "<transcript>"
  const TranscriptClose: string := "</transcript>"

  /** The quality level the caller selects. */
  datatype Level = High | Low

  /** The credentials and level `VideoGpt::new` is given. */
  datatype VGConfig = VGConfig(supdataKey: string, anthropicKey: string, level: Level)

  /** A summariser: its two clients' credentials, the instruction and the model, all set once. */
  datatype Summarizer = Summarizer(supdataKey: string, anthropicKey: string, systemPrompt: string, model: string)

  datatype Role = User | Assistant

  /** One text message of a request. */
  datatype Message = Message(role: Role, text: string)

  /** The request body: model, messages in order, cap on the reply's length. */
  datatype CreateMessageParams = CreateMessageParams(model: string, messages: seq<Message>, maxTokens: u32)

  /** One block of the reply: text, or any other kind (image, tool use, ...). */
  datatype ContentBlock = Text(text: string) | Other

  /** The reply of the model API. */
  datatype MessageResponse = MessageResponse(content: seq<ContentBlock>)

  /** An error returned to the caller. */
  datatype Error = TranscriptFailed(message: string)

  /** Why the program aborts instead of returning. */
  datatype Panic =
    | ApiCallFailed(message: string)  // `unwrap` of the API call's error
    | NoContentBlock                  // `content[0]` on an empty reply
    | NotTextContent                  // "Expected text content"

  /** What an async step of the summariser comes to: a value, a returned error, or an abort. */
  datatype Run<+T> = Done(value: T) | Failed(error: Error) | Panicked(panic: Panic)

  // ---------------------------------------------------------------------
  // Level to model
  // ---------------------------------------------------------------------

  /** The model identifier for a level. */
  function ModelFor(level: Level): (model: string)
    ensures LevelOf(model) == Some(level)
  {
    match level
    case High => SonnetModel
    case Low => HaikuModel
  }

  /** The level a model identifier stands for, if any. */
  function LevelOf(model: string): (level: Option<Level>)
  {
    if model == SonnetModel then Some(High)
    else if model == HaikuModel then Some(Low)
    else None
  }

  /**
    The mapping is total and one-to-one: every level has its own model,
    from which the level is read back, and no other string names a level.
   */
  lemma ModelForInvertible(level: Level, model: string)
    ensures LevelOf(ModelFor(level)) == Some(level)
    ensures LevelOf(model) == Some(level) <==> model == ModelFor(level)
  {
  }

  /** `VideoGpt::new`: the instruction and the model for the configured level. */
  function New(config: VGConfig): (vg: Summarizer)
    ensures LevelOf(vg.model) == Some(config.level)
    ensures vg.systemPrompt == SystemPrompt
    ensures vg.supdataKey == config.supdataKey && vg.anthropicKey == config.anthropicKey
  {
    ModelForInvertible(config.level, ModelFor(config.level));
    Summarizer(config.supdataKey, config.anthropicKey, SystemPrompt, ModelFor(config.level))
  }

  // ---------------------------------------------------------------------
  // Request
  // ---------------------------------------------------------------------

  /** The transcript between its opening and closing tags. */
  function WrapTranscript(t: string): (w: string)
    ensures |w| == |TranscriptOpen| + |t| + |TranscriptClose|
    ensures TranscriptOpen <= w
    ensures w[|TranscriptOpen|..|w| - |TranscriptClose|] == t
    ensures w[|w| - |TranscriptClose|..] == TranscriptClose
  {
    TranscriptOpen + t + TranscriptClose
  }

  /** The text between the tags of a wrapped transcript; nothing when the tags are missing. */
  function UnwrapTranscript(w: string): Option<string>
  {
    var n, m := |TranscriptOpen|, |TranscriptClose|;
    if n + m <= |w| && w[..n] == TranscriptOpen && w[|w| - m..] == TranscriptClose
    then Some(w[n..|w| - m])
    else None
  }

  /** Unwrapping undoes wrapping, and only wrapped transcripts unwrap. */
  lemma UnwrapInvertsWrap(t: string, w: string)
    ensures UnwrapTranscript(WrapTranscript(t)) == Some(t)
    ensures UnwrapTranscript(w) == Some(t) <==> WrapTranscript(t) == w
  {
  }

  /**
    The request of `get_instructions`: two user messages, the instruction
    and then the wrapped transcript, under the summariser's model and the
    fixed token cap.
   */
  function BuildRequest(vg: Summarizer, transcript: string): (p: CreateMessageParams)
    ensures p.model == vg.model && p.maxTokens == 64000
    ensures |p.messages| == 2 && p.messages[0].role == User && p.messages[1].role == User
    ensures p.messages[0].text == vg.systemPrompt
    ensures UnwrapTranscript(p.messages[1].text) == Some(transcript)
  {
    UnwrapInvertsWrap(transcript, WrapTranscript(transcript));
    CreateMessageParams(
      vg.model,
      [Message(User, vg.systemPrompt), Message(User, WrapTranscript(transcript))],
      MaxTokens)
  }

  // ---------------------------------------------------------------------
  // Reply and sequencing
  // ---------------------------------------------------------------------

  /**
    The text of the first content block. An empty reply or a first block
    of another kind aborts; nothing is returned then.
   */
  function FirstText(content: seq<ContentBlock>): (r: Run<string>)
    ensures r.Done? <==> |content| > 0 && content[0].Text?
    ensures r.Done? ==> r.value == content[0].text
    ensures |content| == 0 ==> r == Panicked(NoContentBlock)
    ensures |content| > 0 && !content[0].Text? ==> r == Panicked(NotTextContent)
  {
    if |content| == 0 then Panicked(NoContentBlock)
    else match content[0]
      case Text(text) => Done(text)
      case Other => Panicked(NotTextContent)
  }

  /**
    Only the first block matters: a leading text block is the result
    whatever follows, and a leading block of another kind aborts even when
    text comes later.
   */
  lemma FirstTextLooksAtFirstBlockOnly(text: string, rest: seq<ContentBlock>)
    ensures FirstText([Text(text)] + rest) == Done(text)
    ensures FirstText([Other] + rest + [Text(text)]) == Panicked(NotTextContent)
  {
  }

  /**
    `get_instructions`: one call of the model API with the built request.
    A failed call aborts (it is unwrapped), so this step never returns an
    error.
   */
  function GetInstructions(vg: Summarizer, transcript: string,
                           api: CreateMessageParams -> Result<MessageResponse, string>): (r: Run<string>)
    ensures !r.Failed?
    ensures api(BuildRequest(vg, transcript)).Err? ==> r == Panicked(ApiCallFailed(api(BuildRequest(vg, transcript)).error))
    ensures api(BuildRequest(vg, transcript)).Ok? ==> r == FirstText(api(BuildRequest(vg, transcript)).value.content)
  {
    match api(BuildRequest(vg, transcript))
    case Err(e) => Panicked(ApiCallFailed(e))
    case Ok(response) => FirstText(response.content)
  }

  /** `get_transcript`: the transcript service's result, its error returned as it is. */
  function GetTranscript(url: string, fetch: string -> Result<string, string>): (r: Run<string>)
    ensures fetch(url).Ok? ==> r == Done(fetch(url).value)
    ensures fetch(url).Err? ==> r == Failed(TranscriptFailed(fetch(url).error))
  {
    match fetch(url)
    case Ok(t) => Done(t)
    case Err(e) => Failed(TranscriptFailed(e))
  }

  /** `get_gpt`: the transcript, then its summary; a failed fetch ends the run. */
  function GetGpt(vg: Summarizer, url: string, fetch: string -> Result<string, string>,
                  api: CreateMessageParams -> Result<MessageResponse, string>): (r: Run<string>)
    ensures r.Failed? <==> fetch(url).Err?
  {
    match GetTranscript(url, fetch)
    case Done(t) => GetInstructions(vg, t, api)
    case Failed(e) => Failed(e)
    case Panicked(p) => Panicked(p)
  }

  /**
    A failed fetch is the run's result and the model API is never
    consulted; any returned error is the fetch's.
   */
  lemma TranscriptFailureStopsRun(vg: Summarizer, url: string, fetch: string -> Result<string, string>,
                                  api1: CreateMessageParams -> Result<MessageResponse, string>,
                                  api2: CreateMessageParams -> Result<MessageResponse, string>)
    ensures fetch(url).Err? ==>
      GetGpt(vg, url, fetch, api1) == GetGpt(vg, url, fetch, api2) == Failed(TranscriptFailed(fetch(url).error))
    ensures GetGpt(vg, url, fetch, api1).Failed? ==> fetch(url).Err?
  {
  }

  /**
    After a successful fetch the run makes exactly one API call, with the
    request built from that transcript: two APIs that agree on that one
    request give the same run, and the run's text is that reply's first
    text block.
   */
  lemma SummaryUsesBuiltRequest(vg: Summarizer, url: string, fetch: string -> Result<string, string>,
                                api1: CreateMessageParams -> Result<MessageResponse, string>,
                                api2: CreateMessageParams -> Result<MessageResponse, string>)
    requires fetch(url).Ok?
    ensures var request := BuildRequest(vg, fetch(url).value);
      api1(request) == api2(request) ==> GetGpt(vg, url, fetch, api1) == GetGpt(vg, url, fetch, api2)
    ensures var request := BuildRequest(vg, fetch(url).value);
      api1(request).Ok? && |api1(request).value.content| > 0 && api1(request).value.content[0].Text? ==>
        GetGpt(vg, url, fetch, api1) == Done(api1(request).value.content[0].text)
  {
  }
}
