/** Payload shaping: the request bodies built by `ChatAPI._build_payload`
    and `VisionAPI._build_payload`. The random `fingerprint` is an input,
    and the vision image is given as the bytes already read from its file. */
module Payload {
  import opened Wrappers
  import Base64

  /** An element of a vision message's content list:
      `{'type': 'text', 'text': …}` or `{'type': 'image_url', 'image_url': {'url': …}}`. */
  datatype Part = TextPart(text: string) | ImageUrlPart(url: string)

  /** A message content: a plain string (chat) or a list of parts (vision). */
  datatype Content = Plain(text: string) | Parts(parts: seq<Part>)

  datatype Message = Message(role: string, content: Content)

  datatype StreamOptions = StreamOptions(includeUsage: bool)

  /** The `"body"` dictionary of a request. */
  datatype Body = Body(
    messages: seq<Message>,
    maxTokens: int,
    stop: seq<string>,
    stream: bool,
    streamOptions: StreamOptions,
    model: string,
    envType: string,
    fingerprint: string)

  /** The request payload `{"body": …}`. */
  datatype Payload = Payload(body: Body)

  /** The stop sequence both builders send. */
  const EndOfTurn: string := "<|eot_id|>"

  /** The URL prefix under which the vision builder embeds the image. */
  const JpegDataUrlPrefix: string := "data:image/jpeg;base64,"

  /** The fields both builders set to the same constants. */
  predicate HasFixedFields(b: Body) {
    b.stop == [EndOfTurn] && b.stream && b.streamOptions.includeUsage && b.envType == "text"
  }

  /** The body around a message list, shared by both builders. */
  function Envelope(messages: seq<Message>, model: string, maxTokens: int, fingerprint: string): (b: Body)
    ensures HasFixedFields(b)
  {
    Body(messages, maxTokens, [EndOfTurn], true, StreamOptions(true), model, "text", fingerprint)
  }

  // ---------------------------------------------------------------------
  // Chat
  // ---------------------------------------------------------------------

  /** `ChatAPI._build_payload`: a system message then a user message, the
      model, token budget and fingerprint copied unchanged, and the fixed
      fields. */
  function ChatPayload(prompt: string, model: string, systemPrompt: string, maxTokens: int, fingerprint: string): (p: Payload)
    ensures HasFixedFields(p.body)
    ensures p.body.messages == [Message("system", Plain(systemPrompt)), Message("user", Plain(prompt))]
    ensures p.body.model == model && p.body.maxTokens == maxTokens && p.body.fingerprint == fingerprint
  {
    Payload(Envelope([Message("system", Plain(systemPrompt)), Message("user", Plain(prompt))], model, maxTokens, fingerprint))
  }

  /** The inputs of a chat request. */
  datatype ChatRequest = ChatRequest(prompt: string, model: string, systemPrompt: string, maxTokens: int, fingerprint: string)

  /** The shape every chat body has: the fixed fields and exactly one
      system message followed by one user message, both plain text. */
  predicate IsChatBody(b: Body) {
    && HasFixedFields(b)
    && |b.messages| == 2
    && b.messages[0].role == "system" && b.messages[0].content.Plain?
    && b.messages[1].role == "user" && b.messages[1].content.Plain?
  }

  /** Reads back the inputs of a chat body, if it has the chat shape. */
  function ChatRequestOf(b: Body): Option<ChatRequest> {
    if IsChatBody(b)
    then Some(ChatRequest(b.messages[1].content.text, b.model, b.messages[0].content.text, b.maxTokens, b.fingerprint))
    else None
  }

  /** Chat bodies are exactly the builder's outputs, and the builder's
      inputs can be read back from them: it loses nothing and adds nothing
      beyond the fixed fields. */
  lemma ChatPayloadRoundTrip(req: ChatRequest, b: Body)
    ensures ChatRequestOf(ChatPayload(req.prompt, req.model, req.systemPrompt, req.maxTokens, req.fingerprint).body) == Some(req)
    ensures ChatRequestOf(b) == Some(req) ==>
      ChatPayload(req.prompt, req.model, req.systemPrompt, req.maxTokens, req.fingerprint).body == b
  {
  }

  // ---------------------------------------------------------------------
  // Vision
  // ---------------------------------------------------------------------

  /** `f'data:image/jpeg;base64,{encoded_string}'` for the image bytes. */
  function ImageDataUrl(image: seq<Base64.Byte>): (url: string)
    ensures JpegDataUrlPrefix <= url
    ensures |url| == |JpegDataUrlPrefix| + 4 * ((|image| + 2) / 3)
  {
    JpegDataUrlPrefix + Base64.Encode(image)
  }

  /** `VisionAPI._build_payload`: one user message whose content is the
      prompt text then the image as a base 64 data URL, the model, token
      budget and fingerprint copied unchanged, and the fixed fields. */
  function VisionPayload(prompt: string, image: seq<Base64.Byte>, model: string, maxTokens: int, fingerprint: string): (p: Payload)
    ensures HasFixedFields(p.body)
    ensures p.body.messages == [Message("user", Parts([TextPart(prompt), ImageUrlPart(ImageDataUrl(image))]))]
    ensures p.body.model == model && p.body.maxTokens == maxTokens && p.body.fingerprint == fingerprint
  {
    var parts := [TextPart(prompt), ImageUrlPart(ImageDataUrl(image))];
    Payload(Envelope([Message("user", Parts(parts))], model, maxTokens, fingerprint))
  }

  /** The inputs of a vision request. */
  datatype VisionRequest = VisionRequest(prompt: string, image: seq<Base64.Byte>, model: string, maxTokens: int, fingerprint: string)

  /** The image bytes behind a data URL with the JPEG base 64 prefix. */
  function ImageOf(url: string): Option<seq<Base64.Byte>> {
    if JpegDataUrlPrefix <= url then Some(Base64.Decode(url[|JpegDataUrlPrefix|..])) else None
  }

  /** The image is recoverable from its data URL. */
  lemma ImageOfDataUrl(image: seq<Base64.Byte>)
    ensures ImageOf(ImageDataUrl(image)) == Some(image)
  {
    var url := ImageDataUrl(image);
    assert url[|JpegDataUrlPrefix|..] == Base64.Encode(image);
    Base64.DecodeEncode(image);
  }

  /** The shape every vision body has: the fixed fields and exactly one
      user message whose content is a text part then an image part. */
  predicate IsVisionBody(b: Body) {
    && HasFixedFields(b)
    && |b.messages| == 1
    && b.messages[0].role == "user" && b.messages[0].content.Parts?
    && |b.messages[0].content.parts| == 2
    && b.messages[0].content.parts[0].TextPart?
    && b.messages[0].content.parts[1].ImageUrlPart?
    && ImageOf(b.messages[0].content.parts[1].url).Some?
  }

  /** Reads back the inputs of a vision body, if it has the vision shape. */
  function VisionRequestOf(b: Body): Option<VisionRequest> {
    if IsVisionBody(b)
    then
      var parts := b.messages[0].content.parts;
      Some(VisionRequest(parts[0].text, ImageOf(parts[1].url).value, b.model, b.maxTokens, b.fingerprint))
    else None
  }

  /** The builder's inputs, the image bytes included, can be read back
      from the vision body it builds. */
  lemma VisionPayloadRoundTrip(req: VisionRequest)
    ensures VisionRequestOf(VisionPayload(req.prompt, req.image, req.model, req.maxTokens, req.fingerprint).body) == Some(req)
  {
    ImageOfDataUrl(req.image);
  }

  /** Two vision requests that differ in any input (the image included)
      give different bodies. */
  lemma VisionPayloadInjective(r1: VisionRequest, r2: VisionRequest)
    requires VisionPayload(r1.prompt, r1.image, r1.model, r1.maxTokens, r1.fingerprint)
          == VisionPayload(r2.prompt, r2.image, r2.model, r2.maxTokens, r2.fingerprint)
    ensures r1 == r2
  {
    VisionPayloadRoundTrip(r1);
    VisionPayloadRoundTrip(r2);
  }
}
