/**
 * The node executors of the workflow execution service and the dispatch on a
 * node's kind. Every executor turns each failure into an outcome value
 * `{success: false, data: null, error}`; none of them throws.
 *
 * The email transport, `fetch` with `response.json()`, `JSON.stringify` and
 * `URLSearchParams` are abstract: they are total functions in an `Io` record
 * that the caller supplies, and the clock reading is a parameter.
 */
module Executors {
  import opened Wrappers
  import opened Values
  import opened Strings

  /** A node definition as the engine receives it. */
  datatype Node = Node(id: string, kind: string, data: Value)

  /** The result of running one node once. */
  datatype Outcome = Outcome(success: bool, data: Value, error: Option<string>)

  function Succeed(data: Value): Outcome {
    Outcome(true, data, None)
  }

  function Fail(message: string): Outcome {
    Outcome(false, Null, Some(message))
  }

  /** The executors' common contract: a failure carries `null` data and a message, a success no error. */
  predicate WellFormed(o: Outcome) {
    (o.success ==> o.error.None?) && (!o.success ==> o.data == Null && o.error.Some?)
  }

  /** What a rejected promise carries: an `Error` (with its message) or some other value. */
  datatype Thrown = ErrorObject(message: string) | NonError

  /** `error instanceof Error ? error.message : fallback`. */
  function MessageOf(t: Thrown, fallback: string): string {
    match t
    case ErrorObject(m) => m
    case NonError => fallback
  }

  /** The email transport's answer to one `send`. */
  datatype SendReply = Replied(status: int, text: string) | SendRejected(reason: Thrown)

  /** The outcome of `response.json()`. */
  datatype JsonBody = Parsed(value: Value) | Unparsable(reason: Thrown)

  /** The answer to one `fetch`. */
  datatype FetchReply = Responded(status: int, json: JsonBody) | FetchRejected(reason: Thrown)

  /** Process-wide email configuration (`undefined` when a variable is unset). */
  datatype EmailEnv = EmailEnv(serviceId: Value, templateId: Value, publicKey: Value)

  /**
   * `JSON.stringify(v)` and `JSON.stringify(v, null, 2)` on defined values,
   * `String(new URLSearchParams(v))` or the message of the TypeError the
   * constructor throws, and `String(n)` on numbers.
   */
  datatype Codec = Codec(stringify: Value -> string, stringifyPretty: Value -> string,
                         searchParams: Value -> Result<string, string>, numberText: real -> string)

  /** The template fields handed to the email transport. */
  datatype TemplateData = TemplateData(toEmail: Value, subject: Value, message: Value, parentData: Value, timestamp: string)

  /** The arguments of one `emailjs.send(serviceId, templateId, templateData, publicKey)`. */
  datatype EmailRequest = EmailRequest(serviceId: Value, templateId: Value, template: TemplateData, publicKey: Value)

  /** The arguments of one `fetch(url, {method, headers, body})`. */
  datatype HttpRequest = HttpRequest(url: Value, verb: Value, headers: map<string, Value>, body: Value)

  /** The capabilities an executor calls through. */
  datatype Io = Io(env: EmailEnv, codec: Codec, send: EmailRequest -> SendReply, fetch: HttpRequest -> FetchReply)

  /** `JSON.stringify` on any value: `undefined` stays `undefined`, anything else becomes a string. */
  function Serialized(f: Value -> string, v: Value): (r: Value)
    ensures v.Undefined? <==> r.Undefined?
    ensures !v.Undefined? ==> r.Str?
  {
    if v.Undefined? then Undefined else Str(f(v))
  }

  /** `JSON.stringify` never gives the empty text: `null` is `"null"` and a string is quoted. */
  ghost predicate SoundCodec(c: Codec) {
    forall v: Value :: !v.Undefined? ==> c.stringify(v) != "" && c.stringifyPretty(v) != ""
  }

  // ---------------------------------------------------------------- start, end

  function StartData(timestamp: string): Value {
    Obj(map["message" := Str("Workflow started"), "timestamp" := Str(timestamp)])
  }

  function EndData(parentData: Value, timestamp: string): Value {
    Obj(map["message" := Str("Workflow completed"), "finalData" := parentData, "timestamp" := Str(timestamp)])
  }

  /** The start node ignores its input and always succeeds. */
  function ExecuteStart(timestamp: string): (r: Outcome)
    ensures r.success && r.error.None?
    ensures Field(r.data, "message") == Str("Workflow started")
    ensures Field(r.data, "timestamp") == Str(timestamp)
  {
    Succeed(StartData(timestamp))
  }

  /** The end node always succeeds and hands its parent's data on as `finalData`. */
  function ExecuteEnd(parentData: Value, timestamp: string): (r: Outcome)
    ensures r.success && r.error.None?
    ensures Field(r.data, "message") == Str("Workflow completed")
    ensures Field(r.data, "finalData") == parentData
  {
    Succeed(EndData(parentData, timestamp))
  }

  // ---------------------------------------------------------------------- text

  const Placeholder: string := "{{parentData}}"

  const InvalidTextMessage: string := "Invalid text node data: text property is required and must be a string"

  /** The text a parent's data is substituted with: a string as it is, anything else as JSON. */
  function Substitute(parentData: Value, codec: Codec): string {
    if parentData.Str? then parentData.s else codec.stringify(parentData)
  }

  /** `processedText`: the first placeholder replaced, only when it occurs and the parent data is truthy. */
  function ProcessedText(text: string, parentData: Value, codec: Codec): (r: string)
    ensures !(Contains(text, Placeholder) && Truthy(parentData)) ==> r == text
  {
    if Contains(text, Placeholder) && Truthy(parentData) then
      ReplaceFirst(text, Placeholder, Substitute(parentData, codec))
    else
      text
  }

  /** The node's text, when `node.data` is truthy and its `text` is a string. */
  function TextOf(data: Value): Option<string> {
    if Truthy(data) && Field(data, "text").Str? then Some(Field(data, "text").s) else None
  }

  function TextData(text: string, parentData: Value, codec: Codec, timestamp: string): Value {
    Obj(map["text" := Str(ProcessedText(text, parentData, codec)), "originalText" := Str(text),
            "parentData" := parentData, "timestamp" := Str(timestamp)])
  }

  /** The text node: validation of `data.text`, then substitution of the placeholder. */
  function ExecuteText(node: Node, parentData: Value, codec: Codec, timestamp: string): (r: Outcome)
    ensures r.success <==> Truthy(node.data) && Field(node.data, "text").Str?
    ensures !r.success ==> r == Fail(InvalidTextMessage)
    ensures r.success ==>
      var text := Field(node.data, "text").s;
      && r.error.None?
      && Field(r.data, "originalText") == Str(text)
      && Field(r.data, "text") == Str(ProcessedText(text, parentData, codec))
      && Field(r.data, "parentData") == parentData
  {
    match TextOf(node.data)
    case None => Fail(InvalidTextMessage)
    case Some(text) => Succeed(TextData(text, parentData, codec, timestamp))
  }

  // --------------------------------------------------------------------- email

  const RecipientRequired: string := "Recipient email address is required"

  const MissingEmailConfig: string :=
    "Missing required EmailJS configuration. Please check your environment variables for VITE_EMAILJS_SERVICE_ID, VITE_EMAILJS_TEMPLATE_ID, and VITE_EMAILJS_PUBLIC_KEY"

  const MessageRequired: string := "Email message or parent data is required"

  const DefaultSubject: string := "Workflow Email"

  const EmailFallbackError: string := "Failed to send email"

  /** `typeof parentData === 'string' ? parentData : JSON.stringify(parentData, null, 2)`. */
  function ParentDataText(parentData: Value, codec: Codec): Value {
    if parentData.Str? then parentData else Serialized(codec.stringifyPretty, parentData)
  }

  /**
   * The checks the email node makes before it sends anything, in source order,
   * and the request it sends when they all pass.
   */
  function PrepareEmail(node: Node, parentData: Value, env: EmailEnv, codec: Codec, timestamp: string)
    : (r: Result<EmailRequest, string>)
    ensures Nullish(node.data) ==> r == Failure(ReadErrorMessage(node.data, "email"))
    ensures !Nullish(node.data) && !Truthy(Field(node.data, "email")) ==> r == Failure(RecipientRequired)
    ensures !Nullish(node.data) && Truthy(Field(node.data, "email")) ==>
      var serviceId := Or(Field(node.data, "serviceId"), env.serviceId);
      var templateId := Or(Field(node.data, "templateId"), env.templateId);
      var publicKey := Or(Field(node.data, "publicKey"), env.publicKey);
      var message := Or(Field(node.data, "message"), Str(""));
      var parentText := ParentDataText(parentData, codec);
      if !Truthy(serviceId) || !Truthy(templateId) || !Truthy(publicKey) then
        r == Failure(MissingEmailConfig)
      else if !Truthy(message) && !Truthy(parentText) then
        r == Failure(MessageRequired)
      else
        && r.Success?
        && r.value.serviceId == serviceId && r.value.templateId == templateId && r.value.publicKey == publicKey
        && r.value.template.toEmail == Field(node.data, "email")
        && r.value.template.subject == Or(Field(node.data, "subject"), Str(DefaultSubject))
        && r.value.template.message == message
        && r.value.template.parentData == parentText
  {
    match Prop(node.data, "email")
    case Failure(e) => Failure(e)
    case Success(toEmail) =>
      if !Truthy(toEmail) then Failure(RecipientRequired)
      else
        var serviceId := Or(Field(node.data, "serviceId"), env.serviceId);
        var templateId := Or(Field(node.data, "templateId"), env.templateId);
        var publicKey := Or(Field(node.data, "publicKey"), env.publicKey);
        if !Truthy(serviceId) || !Truthy(templateId) || !Truthy(publicKey) then Failure(MissingEmailConfig)
        else
          var template := TemplateData(
            toEmail,
            Or(Field(node.data, "subject"), Str(DefaultSubject)),
            Or(Field(node.data, "message"), Str("")),
            ParentDataText(parentData, codec),
            timestamp);
          if !Truthy(template.message) && !Truthy(template.parentData) then Failure(MessageRequired)
          else Success(EmailRequest(serviceId, templateId, template, publicKey))
  }

  function EmailSentData(t: TemplateData, status: int, text: string): Value {
    Obj(map["to_email" := t.toEmail, "subject" := t.subject, "message" := t.message,
            "parent_data" := t.parentData, "status" := Num(status as real), "text" := Str(text),
            "timestamp" := Str(t.timestamp)])
  }

  function StatusMessage(status: int, text: string): string {
    "Email sending failed with status: " + IntToString(status) + " - " + text
  }

  /** The email node: validation, one `send`, success exactly on status 200. */
  function ExecuteEmail(node: Node, parentData: Value, io: Io, timestamp: string): (r: Outcome)
    ensures WellFormed(r)
    ensures r.success <==>
      && PrepareEmail(node, parentData, io.env, io.codec, timestamp).Success?
      && var reply := io.send(PrepareEmail(node, parentData, io.env, io.codec, timestamp).value);
         reply.Replied? && reply.status == 200
    ensures PrepareEmail(node, parentData, io.env, io.codec, timestamp).Failure? ==>
      r == Fail(PrepareEmail(node, parentData, io.env, io.codec, timestamp).error)
    ensures PrepareEmail(node, parentData, io.env, io.codec, timestamp).Success? ==>
      var request := PrepareEmail(node, parentData, io.env, io.codec, timestamp).value;
      match io.send(request)
      case SendRejected(reason) => r == Fail(MessageOf(reason, EmailFallbackError))
      case Replied(status, text) =>
        if status == 200 then r == Succeed(EmailSentData(request.template, status, text))
        else r == Fail(StatusMessage(status, text))
  {
    match PrepareEmail(node, parentData, io.env, io.codec, timestamp)
    case Failure(message) => Fail(message)
    case Success(request) =>
      match io.send(request)
      case SendRejected(reason) => Fail(MessageOf(reason, EmailFallbackError))
      case Replied(status, text) =>
        if status != 200 then Fail(StatusMessage(status, text))
        else Succeed(EmailSentData(request.template, status, text))
  }

  // ----------------------------------------------------------------------- api

  const ApiFallbackError: string := "API call failed"

  /** The TypeError of `const { url, ... } = node.data` when `node.data` is nullish. */
  function DestructureMessage(data: Value): string {
    "Cannot destructure property 'url' of 'node.data' as it is " + (if data.Null? then "null" else "undefined") + "."
  }

  /**
   * `{'Content-Type': 'application/json', ...headers}`: every entry the spread
   * copies is kept and wins over the default; a string or an array is spread
   * into one entry per index.
   */
  function MergeHeaders(headers: Value): (r: map<string, Value>)
    ensures "Content-Type" in r
    ensures !(headers.Obj? && "Content-Type" in headers.fields) ==> r["Content-Type"] == Str("application/json")
    ensures forall k :: k in OwnEntries(headers) ==> k in r && r[k] == OwnEntries(headers)[k]
    ensures forall k :: k in r && k != "Content-Type" ==> k in OwnEntries(headers)
  {
    var base := map["Content-Type" := Str("application/json")];
    assert headers.Str? || headers.Arr? ==> "Content-Type" !in OwnEntries(headers) by {
      if headers.Str? || headers.Arr? {
        forall k | k in OwnEntries(headers) ensures k != "Content-Type" {
          assert IsDigit(k[0]);
        }
      }
    }
    base + OwnEntries(headers)
  }

  /** Spreading the text `"ab"` copies the entries `0: "a"` and `1: "b"`. */
  lemma TextSpreadsByIndex()
    ensures OwnEntries(Str("ab")) == map["0" := Str("a"), "1" := Str("b")]
  {
    var items := Chars("ab");
    assert items == [Str("a"), Str("b")];
    assert items[..1] == [Str("a")] && [Str("a")][..0] == [];
    assert NatToString(0) == "0" && NatToString(1) == "1";
    assert IndexEntries([Str("a")]) == map["0" := Str("a")];
  }

  /** Text typed into the headers field, `"ab"`, is sent as the headers `0: a` and `1: b` beside the default. */
  lemma TextHeadersSpreadByIndex()
    ensures MergeHeaders(Str("ab")) == map["Content-Type" := Str("application/json"), "0" := Str("a"), "1" := Str("b")]
  {
    TextSpreadsByIndex();
  }

  /** `method !== 'GET' ? JSON.stringify(parentData) : undefined`. */
  function RequestBody(verb: Value, parentData: Value, codec: Codec): (r: Value)
    ensures verb == Str("GET") ==> r.Undefined?
    ensures verb != Str("GET") ==> r == Serialized(codec.stringify, parentData)
  {
    if verb != Str("GET") then Serialized(codec.stringify, parentData) else Undefined
  }

  /** The TypeError of `url.includes('?')` when `url` is neither a string nor an array. */
  function IncludesMessage(url: Value): string {
    if Nullish(url) then ReadErrorMessage(url, "includes") else "url.includes is not a function"
  }

  /**
   * When `new URLSearchParams(v)` throws: only for an array (a sequence
   * init) with an item that is not itself a two-item array. An object is
   * read as a record and any other value as query text, which never throws.
   */
  ghost predicate SoundSearchParams(c: Codec) {
    forall v: Value :: c.searchParams(v).Success? <==>
      (v.Arr? ==> forall i :: 0 <= i < |v.items| ==> v.items[i].Arr? && |v.items[i].items| == 2)
  }

  /** `${base}${new URLSearchParams(parentData)}`, or the constructor's TypeError. */
  function WithQuery(base: string, query: Result<string, string>): (r: Result<Value, string>)
    ensures query.Success? ==> r == Success(Str(base + query.value))
    ensures query.Failure? ==> r == Failure(query.error)
  {
    match query
    case Failure(e) => Failure(e)
    case Success(q) => Success(Str(base + q))
  }

  /** The URL that is fetched: query parameters are appended only to a GET with truthy parent data. */
  function FinalUrl(url: Value, verb: Value, parentData: Value, codec: Codec): (r: Result<Value, string>)
    ensures !(verb == Str("GET") && Truthy(parentData)) ==> r == Success(url)
    ensures verb == Str("GET") && Truthy(parentData) && url.Str? ==>
      r == WithQuery(url.s + (if Contains(url.s, "?") then "&" else "?"), codec.searchParams(parentData))
    ensures verb == Str("GET") && Truthy(parentData) && url.Arr? ==>
      r == WithQuery(JoinItems(url.items, codec.numberText) + (if Str("?") in url.items then "&" else "?"),
                     codec.searchParams(parentData))
    ensures verb == Str("GET") && Truthy(parentData) && !url.Str? && !url.Arr? ==> r == Failure(IncludesMessage(url))
    ensures r.Failure? <==>
      verb == Str("GET") && Truthy(parentData) && (!(url.Str? || url.Arr?) || codec.searchParams(parentData).Failure?)
  {
    if verb == Str("GET") && Truthy(parentData) then
      if url.Str? then
        WithQuery(url.s + (if Contains(url.s, "?") then "&" else "?"), codec.searchParams(parentData))
      else if url.Arr? then
        // `Array.prototype.includes` looks for an item equal to "?", not for a substring
        WithQuery(JoinItems(url.items, codec.numberText) + (if Str("?") in url.items then "&" else "?"),
                  codec.searchParams(parentData))
      else
        Failure(IncludesMessage(url))
    else
      Success(url)
  }

  /** The method, defaulted to GET when it is missing. */
  function MethodOf(data: Value): Value
  {
    DefaultIfUndefined(Field(data, "method"), Str("GET"))
  }

  /** The request the api node issues, or the error raised while building it. */
  function PrepareRequest(node: Node, parentData: Value, codec: Codec): (r: Result<HttpRequest, string>)
    ensures Nullish(node.data) ==> r == Failure(DestructureMessage(node.data))
    ensures r.Success? ==>
      && r.value.verb == MethodOf(node.data)
      && r.value.headers == MergeHeaders(DefaultIfUndefined(Field(node.data, "headers"), Obj(map[])))
      && r.value.body == RequestBody(MethodOf(node.data), parentData, codec)
      && Success(r.value.url) == FinalUrl(Field(node.data, "url"), MethodOf(node.data), parentData, codec)
    ensures !Nullish(node.data) ==>
      (r.Success? <==> FinalUrl(Field(node.data, "url"), MethodOf(node.data), parentData, codec).Success?)
    ensures !Nullish(node.data) && r.Failure? ==>
      r.error == FinalUrl(Field(node.data, "url"), MethodOf(node.data), parentData, codec).error
  {
    if Nullish(node.data) then Failure(DestructureMessage(node.data))
    else
      var url := Field(node.data, "url");
      var verb := MethodOf(node.data);
      var headers := DefaultIfUndefined(Field(node.data, "headers"), Obj(map[]));
      match FinalUrl(url, verb, parentData, codec)
      case Failure(e) => Failure(e)
      case Success(finalUrl) => Success(HttpRequest(finalUrl, verb, MergeHeaders(headers), RequestBody(verb, parentData, codec)))
  }

  /** The api node: one `fetch`; it succeeds whenever the body parses as JSON, whatever the status. */
  function ExecuteApi(node: Node, parentData: Value, io: Io): (r: Outcome)
    ensures WellFormed(r)
    ensures r.success <==>
      && PrepareRequest(node, parentData, io.codec).Success?
      && var reply := io.fetch(PrepareRequest(node, parentData, io.codec).value);
         reply.Responded? && reply.json.Parsed?
    ensures r.success ==> r.data == io.fetch(PrepareRequest(node, parentData, io.codec).value).json.value
    ensures PrepareRequest(node, parentData, io.codec).Failure? ==>
      r == Fail(PrepareRequest(node, parentData, io.codec).error)
    ensures PrepareRequest(node, parentData, io.codec).Success? ==>
      match io.fetch(PrepareRequest(node, parentData, io.codec).value)
      case FetchRejected(reason) => r == Fail(MessageOf(reason, ApiFallbackError))
      case Responded(_, Unparsable(reason)) => r == Fail(MessageOf(reason, ApiFallbackError))
      case Responded(_, Parsed(body)) => r == Succeed(body)
  {
    match PrepareRequest(node, parentData, io.codec)
    case Failure(message) => Fail(message)
    case Success(request) =>
      match io.fetch(request)
      case FetchRejected(reason) => Fail(MessageOf(reason, ApiFallbackError))
      case Responded(_, Unparsable(reason)) => Fail(MessageOf(reason, ApiFallbackError))
      case Responded(_, Parsed(body)) => Succeed(body)
  }

  // ------------------------------------------------------------------ dispatch

  /** The five kinds `executeNode` recognises. */
  predicate KnownKind(kind: string) {
    kind == "start" || kind == "end" || kind == "api" || kind == "email" || kind == "text"
  }

  /** `executeNode`: dispatch on the node's kind; any other kind fails. */
  function ExecuteNode(node: Node, parentData: Value, io: Io, timestamp: string): (r: Outcome)
    ensures WellFormed(r)
    ensures !KnownKind(node.kind) ==> r == Fail("Unsupported node type: " + node.kind)
    ensures node.kind == "start" || node.kind == "end" ==> r.success
    ensures node.kind == "end" ==> Field(r.data, "finalData") == parentData
  {
    match node.kind
    case "start" => ExecuteStart(timestamp)
    case "end" => ExecuteEnd(parentData, timestamp)
    case "api" => ExecuteApi(node, parentData, io)
    case "email" => ExecuteEmail(node, parentData, io, timestamp)
    case "text" => ExecuteText(node, parentData, io.codec, timestamp)
    case _ => Fail("Unsupported node type: " + node.kind)
  }

  // -------------------------------------------------------- executor laws

  /**
   * Under a sound `JSON.stringify`, the message check fails only for a
   * parent that gave no data, or gave the empty string: any other parent
   * data, a failed parent's `null` included, is a non-empty text.
   */
  lemma DefinedParentDataIsAMessage(node: Node, parentData: Value, env: EmailEnv, codec: Codec, timestamp: string)
    requires SoundCodec(codec)
    requires !parentData.Undefined? && parentData != Str("")
    ensures PrepareEmail(node, parentData, env, codec, timestamp) != Failure(MessageRequired)
  {
    var text := ParentDataText(parentData, codec);
    if !parentData.Str? {
      assert codec.stringifyPretty(parentData) != "";
    }
    assert Truthy(text);
  }

  /** An email node without a recipient fails with the fixed message, whatever the transport would answer. */
  lemma MissingRecipientSendsNothing(node: Node, parentData: Value, io: Io, send: EmailRequest -> SendReply, timestamp: string)
    requires node.kind == "email" && !Nullish(node.data) && !Truthy(Field(node.data, "email"))
    ensures ExecuteNode(node, parentData, io, timestamp) == Fail(RecipientRequired)
    ensures ExecuteNode(node, parentData, io.(send := send), timestamp) == Fail(RecipientRequired)
  {
  }

  /** Any failed validation decides the email node's outcome before the transport is consulted. */
  lemma EmailValidationPrecedesSend(node: Node, parentData: Value, io: Io, send: EmailRequest -> SendReply, timestamp: string)
    requires PrepareEmail(node, parentData, io.env, io.codec, timestamp).Failure?
    ensures ExecuteEmail(node, parentData, io, timestamp) == ExecuteEmail(node, parentData, io.(send := send), timestamp)
  {
  }

  /** The api node ignores the HTTP status: two transports that differ only in status give the same outcome. */
  lemma ApiIgnoresStatus(node: Node, parentData: Value, io: Io, fetch: HttpRequest -> FetchReply)
    requires forall req :: io.fetch(req).Responded? <==> fetch(req).Responded?
    requires forall req :: io.fetch(req).Responded? ==> io.fetch(req).json == fetch(req).json
    requires forall req :: io.fetch(req).FetchRejected? ==> io.fetch(req) == fetch(req)
    ensures ExecuteApi(node, parentData, io) == ExecuteApi(node, parentData, io.(fetch := fetch))
  {
    match PrepareRequest(node, parentData, io.codec)
    case Failure(_) =>
    case Success(req) =>
      assert io.fetch(req).Responded? <==> fetch(req).Responded?;
  }

  /**
   * A GET api node whose parent returned an array of records, such as
   * `[{"id": 1}]`, fails with the TypeError of `new URLSearchParams`: a
   * record is not a name-value pair. Nothing is fetched.
   */
  lemma RecordArrayParentFailsGet(url: string, record: map<string, Value>, io: Io)
    requires SoundSearchParams(io.codec)
    ensures var node := Node("api", "api", Obj(map["url" := Str(url)]));
            var parentData := Arr([Obj(record)]);
            && io.codec.searchParams(parentData).Failure?
            && ExecuteApi(node, parentData, io) == Fail(io.codec.searchParams(parentData).error)
  {
    var node := Node("api", "api", Obj(map["url" := Str(url)]));
    var parentData := Arr([Obj(record)]);
    assert !parentData.items[0].Arr?;
    var query := io.codec.searchParams(parentData);
    assert query.Failure?;
    assert MethodOf(node.data) == Str("GET");
    assert FinalUrl(Str(url), Str("GET"), parentData, io.codec) == Failure(query.error);
    assert PrepareRequest(node, parentData, io.codec) == Failure(query.error);
  }

  /**
   * A url held in a one-item array is fetched as its text, but the query is
   * always joined with `?`: the array's `includes` tests for an item equal
   * to "?", so a `?` inside the text does not count.
   */
  lemma ArrayUrlIgnoresInnerQuestionMark(text: string, parentData: Value, codec: Codec)
    requires Truthy(parentData) && text != "?"
    ensures FinalUrl(Arr([Str(text)]), Str("GET"), parentData, codec)
         == WithQuery(text + "?", codec.searchParams(parentData))
  {
    assert Str("?") !in [Str(text)];
    assert JoinItems([Str(text)], codec.numberText) == text;
  }

  /**
   * The text node substitutes the first placeholder: with the placeholder
   * nowhere in `pre`, a truthy parent's data replaces it, taken as it is
   * when a string and serialised otherwise, with `replace`'s `$` patterns
   * expanded; text without a `$` goes in verbatim.
   */
  lemma TextSubstitutesPlaceholder(pre: string, post: string, parentData: Value, codec: Codec)
    requires Truthy(parentData)
    requires forall j :: 0 <= j < |pre| ==> !OccursAt(pre + Placeholder + post, Placeholder, j)
    ensures ProcessedText(pre + Placeholder + post, parentData, codec)
         == pre + Expand(Substitute(parentData, codec), Placeholder, pre, post) + post
    ensures '$' !in Substitute(parentData, codec) ==>
              ProcessedText(pre + Placeholder + post, parentData, codec) == pre + Substitute(parentData, codec) + post
  {
    var text := pre + Placeholder + post;
    assert text[|pre|..|pre| + |Placeholder|] == Placeholder;
    OccurrenceIsContained(text, Placeholder, |pre|);
    ReplaceAtUniqueOccurrence(pre, Placeholder, post, Substitute(parentData, codec));
  }

  /** A string parent data `"$&"` puts the placeholder itself back: the text comes out unchanged. */
  lemma DollarAmpersandKeepsPlaceholder(pre: string, post: string, codec: Codec)
    requires forall j :: 0 <= j < |pre| ==> !OccursAt(pre + Placeholder + post, Placeholder, j)
    ensures ProcessedText(pre + Placeholder + post, Str("$&"), codec) == pre + Placeholder + post
  {
    TextSubstitutesPlaceholder(pre, post, Str("$&"), codec);
    assert "$&"[2..] == [];
    assert Expand("$&", Placeholder, pre, post) == Placeholder;
  }
}
