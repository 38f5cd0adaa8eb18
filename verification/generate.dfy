/** The `/api/generate` handler of both variants, from the parsed request body to the reply
    body: input validation, the request sent to the model, and the output taken from the
    model's decoded reply. The call to the model is not modelled: the decoded reply is a
    parameter, and a request that is rejected never reaches the point where it is used. */
module Generate {
  import opened Wrappers
  import opened Text
  import opened JsValue
  import opened LabelLine
  import opened Settings
  import opened History
  import opened Envelope
  import opened Cleanup
  import opened Prompt

  /** Longest input accepted, in characters. */
  const MaxInputLength: nat := 10000

  datatype Rejection = InputRequired | InputTooLong

  function RejectionMessage(why: Rejection): string {
    match why
    case InputRequired => "Input is required."
    case InputTooLong => "Input is too long (max 10000 chars)."
  }

  /** The two checks on `input`, in the order the handler makes them: a missing, non-string or
      blank input is required, and only then is the length (untrimmed) tested. */
  function CheckInput(input: Value): (r: Option<Rejection>)
    ensures r.None? <==> input.Str? && Trim(input.s) != "" && |input.s| <= MaxInputLength
    ensures r == Some(InputTooLong) ==> input.Str? && |input.s| > MaxInputLength
  {
    if !Truthy(input) || !input.Str? || Trim(input.s) == "" then Some(InputRequired)
    else if |input.s| > MaxInputLength then Some(InputTooLong)
    else None
  }

  /** The settings the reply reports, each clamped to its default when unknown. */
  datatype Choice = Choice(mode: Mode, tone: Tone, length: Length)

  /** What is sent to the model, before the prompt is rendered: the system text, the history
      turns that precede the prompt, the input the prompt is built from, and the limits. The
      fixed parts of the request (schema version, `topP`) are left out, and the temperature
      is a tag. */
  datatype ModelRequest = ModelRequest(system: string, history: seq<Turn>, input: string, maxTokens: nat, temperature: Temperature)

  /** The handler up to the model call: rejected, or ready with the request to send. */
  datatype Prepared = Rejected(why: Rejection) | Ready(choice: Choice, request: ModelRequest)

  /** The fields the handler reads, from `req.body || {}`. */
  function Field(body: Value, key: string): Value {
    Get(Or(body, Obj(map[])), key)
  }

  /** The settings of a body, each clamped. */
  function ChoiceOf(body: Value): Choice {
    Choice(ClampMode(Field(body, "mode")), ClampTone(Field(body, "tone")), ClampLength(Field(body, "length")))
  }

  /** The handler up to the model call. Only general chat carries history, and then at most
      the last ten usable turns. */
  function Prepare(body: Value): (r: Prepared)
    ensures r.Rejected? <==> CheckInput(Field(body, "input")).Some?
    ensures r.Rejected? ==> Some(r.why) == CheckInput(Field(body, "input"))
    ensures r.Ready? ==>
      && r.choice == ChoiceOf(body)
      && Field(body, "input") == Str(r.request.input)
      && r.request.system == SystemText(r.choice.mode)
      && r.request.maxTokens == MaxTokens(r.choice.length)
      && r.request.temperature == TemperatureFor(r.choice.mode)
    ensures r.Ready? && r.choice.mode != General ==> r.request.history == []
    ensures r.Ready? && r.choice.mode == General ==> r.request.history == NormalizeHistory(Field(body, "history"))
    ensures r.Ready? ==> |r.request.history| <= HistoryLimit
  {
    var input := Field(body, "input");
    match CheckInput(input)
    case Some(why) => Rejected(why)
    case None =>
      var choice := ChoiceOf(body);
      var history := if choice.mode == General then NormalizeHistory(Field(body, "history")) else [];
      Ready(choice, ModelRequest(SystemText(choice.mode), history, input.s, MaxTokens(choice.length), TemperatureFor(choice.mode)))
  }

  /** The turns sent: the history, then the prompt as the last user turn. */
  function Messages(v: Variant, c: Choice, req: ModelRequest): (ms: seq<Turn>)
    ensures |ms| == |req.history| + 1 && ms[..|req.history|] == req.history
    ensures ms[|req.history|] == Turn(User, BuildPrompt(v, c.mode, req.input, c.tone, c.length))
  {
    req.history + [Turn(User, BuildPrompt(v, c.mode, req.input, c.tone, c.length))]
  }

  /** What an accepted body sends: in general chat the normalised history and then the prompt,
      at most eleven turns; in every other mode the prompt alone. No turn sent is blank. */
  lemma SentTurns(v: Variant, body: Value)
    requires Prepare(body).Ready?
    ensures var p := Prepare(body);
            var ms := Messages(v, p.choice, p.request);
            && Field(body, "input") == Str(p.request.input)
            && ms[|ms| - 1] == Turn(User, BuildPrompt(v, p.choice.mode, p.request.input, p.choice.tone, p.choice.length))
            && (p.choice.mode == General ==> ms[..|ms| - 1] == NormalizeHistory(Field(body, "history")))
            && (p.choice.mode != General ==> |ms| == 1)
            && |ms| <= HistoryLimit + 1
            && forall i :: 0 <= i < |ms| ==> Trim(ms[i].text) != []
  {
    var p := Prepare(body);
    var c := p.choice;
    PromptNotBlank(v, c.mode, p.request.input, c.tone, c.length);
    TurnsNotBlank(p.request.history, BuildPrompt(v, c.mode, p.request.input, c.tone, c.length));
  }

  lemma TurnsNotBlank(history: seq<Turn>, prompt: string)
    requires forall i :: 0 <= i < |history| ==> Trim(history[i].text) != []
    requires Trim(prompt) != []
    ensures var ms := history + [Turn(User, prompt)];
            forall i :: 0 <= i < |ms| ==> Trim(ms[i].text) != []
  {
    var ms := history + [Turn(User, prompt)];
    forall i | 0 <= i < |ms| ensures Trim(ms[i].text) != [] {
      if i < |history| {
        assert ms[i] == history[i];
      } else {
        assert ms[i].text == prompt;
      }
    }
  }

  /** The text the reply reports when the model's text is falsy. */
  const EmptyReply: string := "The model returned an empty response."

  /** The fallback text: the lambda and the server in production report `EmptyReply`; the
      server in development reports the decoded reply serialised as JSON, `dump`. */
  function FallbackText(v: Variant, production: bool, dump: string): (r: string)
    ensures v == Lambda || production ==> r == EmptyReply
    ensures r != EmptyReply ==> v != Lambda && !production && r == dump
  {
    if v == Lambda || production then EmptyReply else dump
  }

  /** The output before cleanup: the model's text, or the fallback when it is falsy. */
  function RawOutput(decoded: Value, fallback: string): (r: Value)
    ensures Truthy(ExtractOutputText(decoded)) ==> r == ExtractOutputText(decoded)
    ensures !Truthy(ExtractOutputText(decoded)) ==> r == Str(fallback)
    ensures fallback != "" ==> Truthy(r)
  {
    var output := ExtractOutputText(decoded);
    if Truthy(output) then output else Str(fallback)
  }

  /** The cleanup that depends on the mode: emails lose their rules and extra blank lines when
      the output is a string, general chat goes through the variant's cleanup, and summaries
      and plans are returned as they are. */
  function Finish(v: Variant, m: Mode, output: Value): (r: Value)
    ensures m == Summary || m == Plan ==> r == output
    ensures m == Mode.Email && !output.Str? ==> r == output
    ensures m == Mode.Email && output.Str? ==> r.Str? && IsTrimmed(r.s) && NoTripleNewline(r.s)
    ensures m == General && v == Lambda ==> r.Str? && IsTrimmed(r.s) && NoTripleNewline(r.s)
    ensures m == General && v == Server ==> (r.Str? <==> output.Str?)
    ensures m == General && v == Server && output.Str? ==> IsTrimmed(r.s) && NoTripleNewline(r.s)
  {
    var o := if m == Mode.Email && output.Str? then Str(EmailClean(output.s)) else output;
    if m == General then (if v == Server then ServerClean(o) else Str(LambdaClean(o))) else o
  }

  /** The reply body: an error message, or the output with the settings it was made with.
      The latency and the model id are left out. */
  datatype Payload = Failure(error: string) | Generated(output: Value, settings: Choice)

  datatype Answer = Answer(status: nat, payload: Payload)

  /** The handler: 400 with the rejection's message, or 200 with the cleaned output. When the
      model's text is falsy, the output is built from `FallbackText`: the server in development
      reports `dump`, the decoded reply serialised as JSON. */
  function Handle(v: Variant, body: Value, decoded: Value, production: bool, dump: string): (a: Answer)
    ensures a.status == 400 <==> CheckInput(Field(body, "input")).Some?
    ensures a.status == 400 ==> a.payload == Failure(RejectionMessage(CheckInput(Field(body, "input")).value))
    ensures a.status != 400 ==> a.status == 200 && a.payload.Generated?
    ensures a.status == 200 ==> a.payload.settings == ChoiceOf(body)
    ensures a.status == 200 ==> a.payload.output == Finish(v, a.payload.settings.mode, RawOutput(decoded, FallbackText(v, production, dump)))
  {
    match CheckInput(Field(body, "input"))
    case Some(why) => Answer(400, Failure(RejectionMessage(why)))
    case None =>
      var choice := ChoiceOf(body);
      Answer(200, Generated(Finish(v, choice.mode, RawOutput(decoded, FallbackText(v, production, dump))), choice))
  }

  /** When the model's text is falsy, the lambda and the server in production answer a summary,
      a plan or an email with the fixed empty-response text; the server in development answers
      a summary or a plan with the serialised reply. */
  lemma EmptyReplyAnswer(v: Variant, body: Value, decoded: Value, production: bool, dump: string)
    requires CheckInput(Field(body, "input")).None? && !Truthy(ExtractOutputText(decoded))
    ensures var a := Handle(v, body, decoded, production, dump);
      && a.status == 200
      && (ChoiceOf(body).mode != General && (v == Lambda || production) ==> a.payload.output == Str(EmptyReply))
      && (ChoiceOf(body).mode in {Summary, Plan} && v == Server && !production ==> a.payload.output == Str(dump))
  {
    EmptyReplyTidy();
  }

  /** The empty-response text goes through the email cleanup unchanged. */
  lemma EmptyReplyTidy()
    ensures EmailClean(EmptyReply) == EmptyReply
  {
    var s := EmptyReply;
    assert s[0] == 'T' && s[|s| - 1] == '.';
    assert '\n' !in s;
    SingleLineEmail(s);
  }

  /** A trimmed text on a single line is a tidy email: the cleanup leaves it as it is. */
  lemma SingleLineEmail(s: string)
    requires '\n' !in s && IsTrimmed(s)
    ensures EmailClean(s) == s
  {
    forall i | 0 <= i <= |s| - |Rule| ensures !OccursAt(s, Rule, i) {
      assert s[i] != Rule[0] && s[i..i + |Rule|][0] == s[i];
    }
    EmailCleanKeepsTidy(s);
  }

  /** Blank input is "required" however long it is: the blank test comes first. */
  lemma BlankBeforeLength(s: string)
    requires AllSpace(s)
    ensures CheckInput(Str(s)) == Some(InputRequired)
  {
    TrimEmptyIffBlank(s);
  }

  /** A reply whose text is a lone line feed is truthy, so it escapes the empty-reply
      fallback, and the email cleanup then trims it to nothing: the answer is empty. */
  lemma BlankReplyEmptiesEmail(v: Variant, fallback: string)
    ensures var d := MessageReply([Obj(map["text" := Str("\n")])]);
            Finish(v, Mode.Email, RawOutput(d, fallback)) == Str("")
  {
    LineFeedReply(fallback);
    LineFeedEmail();
  }

  lemma LineFeedReply(fallback: string)
    ensures RawOutput(MessageReply([Obj(map["text" := Str("\n")])]), fallback) == Str("\n")
  {
    var blocks := [Obj(map["text" := Str("\n")])];
    assert ContentList(MessageReply(blocks)) == Arr(blocks);
    assert FirstWithText(blocks) == Some(0);
  }

  lemma LineFeedEmail()
    ensures EmailClean("\n") == ""
  {
    assert ReplaceRules("\n") == "\n";
    assert NewlineRun("\n") == 1;
    assert CollapseNewlines("\n") == "\n";
    assert AllSpace("\n");
    TrimEmptyIffBlank("\n");
  }

  /** A reply whose text is a number: the server's general-chat cleanup passes it through as
      a number, the lambda's turns it into a string. */
  lemma NumberReplyDiffers(fallback: string)
    ensures var d := MessageReply([Obj(map["text" := Num(7)])]);
            && Finish(Server, General, RawOutput(d, fallback)) == Num(7)
            && Finish(Lambda, General, RawOutput(d, fallback)) == Str("7")
  {
    NumberReply(fallback);
    LambdaSeven();
  }

  lemma LambdaSeven()
    ensures LambdaClean(Num(7)) == "7"
  {
    assert ToJsString(Or(Num(7), Str(""))) == "7" == ToJsString(Or(Str("7"), Str("")));
    ShortNoHeading("7");
    LambdaWithoutHeadings("7");
    SevenTidy();
  }

  lemma SevenTidy()
    ensures Trim(CollapseNewlines(Trim("7"))) == "7"
  {
    assert IsTrimmed("7") && NewlineRun("7") == 0;
    TrimOfTrimmed("7");
    assert CollapseNewlines("7") == "7";
  }

  lemma NumberReply(fallback: string)
    ensures RawOutput(MessageReply([Obj(map["text" := Num(7)])]), fallback) == Num(7)
  {
    var blocks := [Obj(map["text" := Num(7)])];
    assert ContentList(MessageReply(blocks)) == Arr(blocks);
    assert FirstWithText(blocks) == Some(0);
  }
}
