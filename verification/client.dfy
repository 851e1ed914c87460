/**
 * The public client: its constructor checks, the chat-completion entry
 * points (non-streaming, streaming, and the content-only stream), and the
 * MIME type lookups by file extension.
 */
module Client {
  import opened Wrappers
  import opened Text
  import opened Errors
  import opened HttpClient
  import opened StreamDecoder
  import RetryProperties
  import StreamProperties

  const ApiKeyRequired := "API key is required"
  const BaseUrlRequired := "Base URL is required"
  const UseStreamMethod := "Use createChatCompletionStream for streaming responses"

  // ---------------------------------------------------------------------------
  // Construction
  // ---------------------------------------------------------------------------

  /**
   * `new USAiAPI(config)`: an empty or missing API key is rejected first,
   * then an empty or missing base URL; otherwise the HTTP client is built
   * with the defaults merged in.
   */
  function NewClient(c: ClientConfig): (r: Result<Settings, Raised>)
    ensures r.Success? <==> c.apiKey != "" && c.baseUrl != ""
    ensures c.apiKey == "" ==> r == Failure(Native("Error", ApiKeyRequired))
    ensures c.apiKey != "" && c.baseUrl == "" ==> r == Failure(Native("Error", BaseUrlRequired))
    ensures r.Success? ==> r.value.apiKey == c.apiKey && r.value.baseUrl == c.baseUrl
    ensures r.Success? ==> RetryBudget(r.value) != 0 && BaseDelay(r.value) != 0
  {
    RetryProperties.EffectiveRetrySettings(c);
    if c.apiKey == "" then Failure(Native("Error", ApiKeyRequired))
    else if c.baseUrl == "" then Failure(Native("Error", BaseUrlRequired))
    else Success(Configure(c))
  }

  // ---------------------------------------------------------------------------
  // Chat completions
  // ---------------------------------------------------------------------------

  /** A chat request: its payload (model, messages, sampling options) and its `stream` flag. */
  datatype ChatRequest<B> = ChatRequest(payload: B, stream: bool)

  /**
   * `createChatCompletion`: a request that asks for streaming is refused
   * before anything is sent; otherwise the engine makes its attempts and
   * the caller gets the parsed body of the 2xx that ended them, or the
   * error the engine threw.
   */
  method CreateChatCompletion<B, T>(s: Settings, h: Handler, req: ChatRequest<B>, net: nat -> Attempt<T>)
    returns (r: Result<T, Raised>, attempts: nat)
    ensures req.stream ==> r == Failure(Native("Error", UseStreamMethod)) && attempts == 0
    ensures !req.stream ==> attempts == Run(s, h, false, net, 0, None).attempts
    ensures !req.stream ==> (r.Failure? <==> Run(s, h, false, net, 0, None).outcome.Threw?)
    ensures !req.stream && r.Failure? ==> r.error == Run(s, h, false, net, 0, None).outcome.error
    ensures !req.stream && r.Success? ==>
              && 1 <= attempts
              && net(attempts - 1).Received?
              && net(attempts - 1).response.Ok()
              && net(attempts - 1).response.json.Parsed?
              && r.value == net(attempts - 1).response.json.value
  {
    if req.stream {
      return Failure(Native("Error", UseStreamMethod)), 0;
    }
    var outcome, sleeps;
    outcome, attempts, sleeps := Request(s, h, false, net);
    RetryProperties.ReturnedReplyFollowsMode(s, h, false, net);
    if outcome.Threw? {
      r := Failure(outcome.error);
    } else {
      r := Success(outcome.reply.value);
    }
  }

  /**
   * `createChatCompletionStream`: the request is always sent with
   * `stream: true` and the engine in streaming mode; the caller gets the
   * raw 2xx response whose body the stream decoder then reads, or the error
   * the engine threw.  The body is not looked at here: a missing body is
   * reported when the stream is first read.
   */
  method CreateChatCompletionStream<B, T>(s: Settings, h: Handler, req: ChatRequest<B>, net: nat -> Attempt<T>)
    returns (r: Result<Response<T>, Raised>, sent: ChatRequest<B>, attempts: nat)
    ensures sent.stream && sent.payload == req.payload
    ensures attempts == Run(s, h, true, net, 0, None).attempts
    ensures r.Failure? <==> Run(s, h, true, net, 0, None).outcome.Threw?
    ensures r.Failure? ==> r.error == Run(s, h, true, net, 0, None).outcome.error
    ensures r.Success? ==> 1 <= attempts && net(attempts - 1) == Received(r.value) && r.value.Ok()
  {
    sent := req.(stream := true);
    var outcome, sleeps;
    outcome, attempts, sleeps := Request(s, h, true, net);
    RetryProperties.ReturnedReplyFollowsMode(s, h, true, net);
    if outcome.Threw? {
      r := Failure(outcome.error);
    } else {
      r := Success(outcome.reply.response);
    }
  }

  // ---------------------------------------------------------------------------
  // Content-only streaming
  // ---------------------------------------------------------------------------

  /** The parts of a stream frame the content stream reads. */
  datatype Delta = Delta(content: Option<string>)
  datatype StreamChoice = StreamChoice(delta: Option<Delta>)
  datatype StreamChunk = StreamChunk(choices: seq<StreamChoice>)

  /** `chunk.choices[0]?.delta?.content`: absent when there is no first choice, delta or content. */
  function DeltaContent(c: StreamChunk): (o: Option<string>)
    ensures o.Some? <==> |c.choices| > 0 && c.choices[0].delta.Some? && c.choices[0].delta.value.content.Some?
    ensures o.Some? ==> o.value == c.choices[0].delta.value.content.value
  {
    if |c.choices| == 0 then None
    else match c.choices[0].delta
      case None => None
      case Some(d) => d.content
  }

  /** The texts the content stream yields for a sequence of frames: every non-empty content, in order. */
  function DeltaTexts(frames: seq<StreamChunk>): (texts: seq<string>)
    ensures |texts| <= |frames|
    ensures forall i :: 0 <= i < |texts| ==> texts[i] != ""
    decreases |frames|
  {
    if |frames| == 0 then []
    else
      var c := DeltaContent(frames[0]);
      (if c.Some? && c.value != "" then [c.value] else []) + DeltaTexts(frames[1..])
  }

  lemma {:induction false} DeltaTextsAppend(a: seq<StreamChunk>, b: seq<StreamChunk>)
    ensures DeltaTexts(a + b) == DeltaTexts(a) + DeltaTexts(b)
    decreases |a|
  {
    if |a| == 0 {
      assert a + b == b;
    } else {
      assert (a + b)[0] == a[0];
      assert (a + b)[1..] == a[1..] + b;
      DeltaTextsAppend(a[1..], b);
    }
  }

  /** A text is yielded exactly when it is the non-empty content of some frame. */
  lemma {:induction false} DeltaTextsOrigin(frames: seq<StreamChunk>, t: string)
    ensures t in DeltaTexts(frames)
        <==> t != "" && exists i :: 0 <= i < |frames| && DeltaContent(frames[i]) == Some(t)
    decreases |frames|
  {
    if |frames| > 0 {
      DeltaTextsOrigin(frames[1..], t);
      if t in DeltaTexts(frames[1..]) {
        var i :| 0 <= i < |frames[1..]| && DeltaContent(frames[1..][i]) == Some(t);
        assert DeltaContent(frames[i + 1]) == Some(t);
      }
      if t != "" && exists i :: 0 <= i < |frames| && DeltaContent(frames[i]) == Some(t) {
        var i :| 0 <= i < |frames| && DeltaContent(frames[i]) == Some(t);
        if i > 0 {
          assert frames[1..][i - 1] == frames[i];
        }
      }
    }
  }

  /**
   * `completeStream`, read to the end.  `texts` are the texts the caller
   * receives: the non-empty delta contents of the decoded frames, in order.
   * `r` is how the stream ends: with all of them, or with the streaming
   * request's error, the missing-body error, or the error of a read that
   * fails before the `[DONE]` line.
   */
  method CompleteStream<B>(s: Settings, h: Handler, req: ChatRequest<B>, net: nat -> Attempt<StreamChunk>,
                           parse: string -> Option<StreamChunk>)
    returns (r: Result<seq<string>, Raised>, texts: seq<string>, attempts: nat)
    ensures r.Success? ==> r.value == texts
    ensures var t := Run(s, h, true, net, 0, None);
            && attempts == t.attempts
            && (t.outcome.Threw? ==> r == Failure(t.outcome.error) && texts == [])
            && (t.outcome.Returned? ==> 1 <= attempts && net(attempts - 1).Received?)
            && (t.outcome.Returned? && net(attempts - 1).response.body.None? ==>
                  r == Failure(Native("Error", "No response body for streaming")) && texts == [])
    ensures var t := Run(s, h, true, net, 0, None);
            t.outcome.Returned? && 1 <= attempts && net(attempts - 1).Received? && net(attempts - 1).response.body.Some? ==>
              var body := net(attempts - 1).response.body.value;
              var d := Decode(body.chunks, parse);
              && texts == DeltaTexts(d.frames)
              && r == if body.broken.Some? && !d.sawDone then Failure(body.broken.value) else Success(texts)
  {
    var response, sent;
    response, sent, attempts := CreateChatCompletionStream(s, h, req, net);
    if response.Failure? {
      return Failure(response.error), [], attempts;
    }
    var end, frames, ops := ProcessStream(response.value.body, parse, None);
    texts := DeltaTexts(frames);
    r := if end.Failure? then Failure(end.error) else Success(texts);
  }

  /** The content stream's texts do not depend on how the body was cut into chunks. */
  lemma CompletedTextsIgnoreChunking(c1: seq<string>, c2: seq<string>, parse: string -> Option<StreamChunk>)
    requires Concat(c1) == Concat(c2)
    ensures DeltaTexts(Decode(c1, parse).frames) == DeltaTexts(Decode(c2, parse).frames)
  {
    StreamProperties.ChunkBoundaryIndependence(c1, c2, parse);
  }

  // ---------------------------------------------------------------------------
  // MIME types
  // ---------------------------------------------------------------------------

  /** `filePath.toLowerCase().split('.').pop()`: the lower-cased text after the last dot. */
  function Extension(path: string): (ext: string)
    ensures '.' !in ext
  {
    Last(Split(Lower(path), '.'))
  }

  /** The extension of `stem.ext` is `ext` lower-cased, whatever the stem. */
  lemma ExtensionAfterLastDot(stem: string, ext: string)
    requires '.' !in ext
    ensures Extension(stem + "." + ext) == Lower(ext)
  {
    LowerAppend(stem + ".", ext);
    LowerAppend(stem, ".");
    assert Lower(".") == ".";
    assert '.' !in Lower(ext);
    SplitAtSeparator(Lower(stem), Lower(ext), '.');
    SplitWithoutSeparator(Lower(ext), '.');
  }

  /** A path without a dot is its own extension, lower-cased. */
  lemma ExtensionWithoutDot(path: string)
    requires '.' !in path
    ensures Extension(path) == Lower(path)
  {
    assert '.' !in Lower(path);
    SplitWithoutSeparator(Lower(path), '.');
  }

  /** The image types by extension; anything else is taken to be JPEG. */
  const ImageMimeTypes: map<string, string> :=
    map["jpg" := "image/jpeg", "jpeg" := "image/jpeg", "png" := "image/png",
        "gif" := "image/gif", "webp" := "image/webp"]
  const DefaultImageMimeType := "image/jpeg"

  /** The document types by extension; anything else is an octet stream. */
  const FileMimeTypes: map<string, string> :=
    map["pdf" := "application/pdf", "doc" := "application/msword",
        "docx" := "application/vnd.openxmlformats-officedocument.wordprocessingml.document",
        "txt" := "text/plain", "csv" := "text/csv", "json" := "application/json"]
  const DefaultFileMimeType := "application/octet-stream"

  /** `detectImageMimeType`. */
  function DetectImageMimeType(path: string): (mime: string)
    ensures mime in ImageMimeTypes.Values
    ensures mime != DefaultImageMimeType ==> Extension(path) in ImageMimeTypes
  {
    assert ImageMimeTypes["jpg"] == "image/jpeg" && ImageMimeTypes["png"] == "image/png";
    assert ImageMimeTypes["gif"] == "image/gif" && ImageMimeTypes["webp"] == "image/webp";
    var ext := Extension(path);
    if ext == "jpg" || ext == "jpeg" then "image/jpeg"
    else if ext == "png" then "image/png"
    else if ext == "gif" then "image/gif"
    else if ext == "webp" then "image/webp"
    else "image/jpeg"
  }

  /** `detectFileMimeType`. */
  function DetectFileMimeType(path: string): (mime: string)
    ensures mime in FileMimeTypes.Values || mime == DefaultFileMimeType
    ensures mime == DefaultFileMimeType <==> Extension(path) !in FileMimeTypes
  {
    assert FileMimeTypes["pdf"] == "application/pdf" && FileMimeTypes["doc"] == "application/msword";
    assert FileMimeTypes["docx"] == "application/vnd.openxmlformats-officedocument.wordprocessingml.document";
    assert FileMimeTypes["txt"] == "text/plain" && FileMimeTypes["csv"] == "text/csv";
    assert FileMimeTypes["json"] == "application/json";
    var ext := Extension(path);
    if ext == "pdf" then "application/pdf"
    else if ext == "doc" then "application/msword"
    else if ext == "docx" then "application/vnd.openxmlformats-officedocument.wordprocessingml.document"
    else if ext == "txt" then "text/plain"
    else if ext == "csv" then "text/csv"
    else if ext == "json" then "application/json"
    else "application/octet-stream"
  }

  /** The image lookup is the table, with JPEG for every extension not in it. */
  lemma ImageMimeTypeFollowsTable(path: string)
    ensures DetectImageMimeType(path)
         == if Extension(path) in ImageMimeTypes then ImageMimeTypes[Extension(path)]
            else DefaultImageMimeType
    ensures DetectImageMimeType(path) in ImageMimeTypes.Values
  {
    assert ImageMimeTypes["jpg"] == "image/jpeg" && ImageMimeTypes["png"] == "image/png";
    assert ImageMimeTypes["gif"] == "image/gif" && ImageMimeTypes["webp"] == "image/webp";
  }

  /** The document lookup is the table, with an octet stream for every extension not in it. */
  lemma FileMimeTypeFollowsTable(path: string)
    ensures DetectFileMimeType(path)
         == if Extension(path) in FileMimeTypes then FileMimeTypes[Extension(path)]
            else DefaultFileMimeType
  {
  }

  /** The lookups ignore everything before the last dot. */
  lemma MimeTypeByExtensionOnly(stem: string, ext: string)
    requires '.' !in ext
    ensures DetectImageMimeType(stem + "." + ext) == DetectImageMimeType(ext)
    ensures DetectFileMimeType(stem + "." + ext) == DetectFileMimeType(ext)
  {
    ExtensionAfterLastDot(stem, ext);
    ExtensionWithoutDot(ext);
  }

  /** The lookups ignore letter case. */
  lemma MimeTypeIgnoresCase(path: string)
    ensures DetectImageMimeType(Lower(path)) == DetectImageMimeType(path)
    ensures DetectFileMimeType(Lower(path)) == DetectFileMimeType(path)
  {
    LowerIdempotent(path);
  }
}
