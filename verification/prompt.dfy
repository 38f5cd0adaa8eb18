/** `buildPrompt`: the user turn both backend variants send to the model. The four modes share
    the task line (the message without its label lines, or the whole message trimmed) and the
    length request; email adds the labelled context, with bracket placeholders for what the
    message did not give. General chat answers greetings briefly and everything else as a chat. */
module Prompt {
  import opened Wrappers
  import opened Text
  import opened LabelLine
  import opened InlineContext
  import opened Settings
  import opened Greeting

  /** What the email prompt shows for a field the message did not give. */
  function Placeholder(f: Field): string {
    match f
    case Recipient => "[Name/Team]"
    case Role => "[Role]"
    case Company => "[Company]"
    case Name => "[Your Name]"
    case Portfolio => "[Portfolio Link]"
    case Github => "[GitHub Link]"
    case Linkedin => "[LinkedIn]"
    case Email => "[Email]"
  }

  /** `ctx.field || placeholder`. */
  function Shown(ctx: Ctx, f: Field): string {
    if f in ctx && ctx[f] != "" then ctx[f] else Placeholder(f)
  }

  /** A field shows the value of the last label line that stored into it, and its
      placeholder when no line did. */
  lemma ShownField(v: Variant, input: string, f: Field)
    ensures var stored := LastStored(v, SplitLines(input), f);
            Shown(Extract(v, input).ctx, f) == if stored.Some? then stored.value else Placeholder(f)
  {
    ContextShape(v, input, f);
    assert Lookup(Extract(v, input).ctx, f) == LastStored(v, SplitLines(input), f);
  }

  /** `task || input.trim()`: the task without its label lines, or, when nothing else is
      left, the whole message trimmed. A message that is not blank always leaves a task. */
  function TaskText(v: Variant, input: string): (r: string)
    ensures r == Extract(v, input).task || (Extract(v, input).task == "" && r == Trim(input))
    ensures IsTrimmed(r)
    ensures Trim(input) != "" ==> r != ""
  {
    var task := Extract(v, input).task;
    if task != "" then task else Trim(input)
  }

  /** `task || input`: what general chat tests and quotes (the message is not trimmed here). */
  function ChatText(v: Variant, input: string): string {
    var task := Extract(v, input).task;
    if task != "" then task else input
  }

  /** The opening shared by the email, summary and plan prompts, for the task text `task`. */
  function Base(v: Variant, task: string, l: Length): string {
    "User task:\n" + Details(v, task, l)
  }

  /** The task and the length it should take, after the opening line of the base. */
  function Details(v: Variant, task: string, l: Length): string {
    task + "\n\nOutput length: " + LengthName(l) + " (" + WordRange(v, l) + ")."
  }

  const StackLine: string := "- My stack: React, JavaScript, " + "API integration, UI/UX implementation"

  // The long lines of the fixed prompt text below are written as concatenations of short
  // pieces, which the verifier handles far more cheaply than one long literal.

  /** The fixed middle of the email prompt, from the empty line before the requirements to
      the signature heading. */
  const EmailRules: seq<string> := [
    "",
    "Requirements:",
    "- No fluff lines like 'I hope this " + "message finds you well' unless the user " + "explicitly requests a formal tone.",
    "- Avoid vague claims like 'throughout " + "my career' or 'positive feedback from " + "users'.",
    "- Use confident, concise tone. No " + "corporate cliches.",
    "- Do not invent names, titles, " + "companies, achievements, or links. If " + "missing, keep bracket placeholders like " + "[Company], [Role], [Portfolio Link].",
    "- In the Body section, include EXACTLY " + "2 proof bullets and they MUST start " + "with '- ' (dash + space).",
    "- Must include:",
    "  1) subject line",
    "  2) 2-3 sentence intro (who I am + why " + "I'm reaching out)",
    "  3) 2 bullets of proof " + "(projects/skills); use bracket " + "placeholders if specifics are not " + "provided",
    "  4) clear CTA (15-min call / next steps)",
    "  5) signature",
    "",
    "Return output as EXACTLY:",
    "Subject: ...",
    "Body:",
    "...",
    "",
    "Signature format:",
    "Best,"
  ]

  const SummaryRules: seq<string> := [
    "Create an executive summary.",
    "Use this exact structure:",
    "# TL;DR",
    "# Key Points",
    "Use bullets.",
    "# Next Steps",
    "Use bullets."
  ]

  const PlanRules: seq<string> := [
    "Create a practical plan that someone " + "can follow.",
    "If the user provides time availability " + "(hours/day, hours/week, " + "weekdays/weekends), compute the " + "hours/week and allocate work that " + "matches that constraint.",
    "If the user provides a deadline date or " + "number of days/weeks, map the timeline " + "to that horizon (avoid generic Day 1-5 " + "unless the user asked for it).",
    "If the user asks for deployment steps, " + "prefer dashboard steps and do NOT " + "invent CLI commands unless the user " + "explicitly requested CLI.",
    "Use this exact structure:",
    "# Goal",
    "# Assumptions (only if needed)",
    "# Steps",
    "Use a numbered list.",
    "# Timeline",
    "# Risks & Mitigations",
    "# Success Metrics"
  ]

  const GreetingRules: seq<string> := [
    "Reply naturally in 1-2 sentences as " + "plain text.",
    "No headings, no titles, no markdown, no " + "meta sections like Purpose/Conclusion.",
    "Start directly with the response " + "sentence (do not add a label line like " + "'Friendly Greeting').",
    "Then ask one short follow-up question " + "to move the conversation forward."
  ]

  const ChatRules: seq<string> := [
    "Reply like a helpful chat assistant. " + "Keep it direct and human.",
    "Only use headings/bullets if they " + "clearly help the user (for example: " + "plans, checklists, steps).",
    "Never add meta sections like 'Purpose', " + "'Actionable Items', or 'Conclusion' " + "unless the user asked for that format.",
    "If the user asks for deployment steps " + "(e.g., Vercel/Render), prefer dashboard " + "steps and do NOT invent CLI commands " + "unless the user explicitly requested " + "CLI."
  ]

  /** The fixed lines of a prompt: the email requirements, the summary or plan outline, or
      the instructions for a greeting or a chat message. */
  function Rules(m: Mode, greet: bool): seq<string> {
    match m
    case Email => EmailRules
    case Summary => SummaryRules
    case Plan => PlanRules
    case General => if greet then GreetingRules else ChatRules
  }

  /** The line asking for the email in the chosen tone. */
  function ToneRequest(tone: Tone): string {
    "Write a concise " + "outreach/application email in a " + ToneName(tone) + " tone."
  }

  /** The lines of the email prompt before the fixed rules: the opening `base`, the tone and
      the context. */
  function EmailHead(base: string, ctx: Ctx, tone: Tone): seq<string> {
    [ base,
      ToneRequest(tone),
      "",
      "Context:",
      "- Recipient: " + Shown(ctx, Recipient),
      "- Role: " + Shown(ctx, Role),
      "- Company: " + Shown(ctx, Company),
      StackLine,
      "- Links: Portfolio " + Shown(ctx, Portfolio) + " | GitHub " + Shown(ctx, Github)
    ]
  }

  /** The signature that ends the email prompt. */
  function Signature(ctx: Ctx): seq<string> {
    [Shown(ctx, Name), Shown(ctx, Field.Email) + " | " + Shown(ctx, Linkedin)]
  }

  /** The first line of the general-chat prompt: a greeting is quoted as said, anything else
      as a message on a line of its own. */
  function Opening(greet: bool, said: string): string {
    if greet then "User said: " + said else "User message:\n" + said
  }

  /** The lines of a prompt, from its parts: the opening of the structured modes, the context,
      the tone, whether the message greets, the message as quoted, and the fixed lines. */
  function PromptLines(m: Mode, base: string, ctx: Ctx, tone: Tone, greet: bool, said: string, rules: seq<string>): seq<string> {
    match m
    case Email => EmailHead(base, ctx, tone) + rules + Signature(ctx)
    case Summary => [base] + rules
    case Plan => [base] + rules
    case General => [Opening(greet, said)] + rules
  }

  /** The prompt: its lines joined with line feeds. The structured modes open with the task and
      the length request; general chat opens with "User said: " exactly when the message is a
      greeting, and always quotes the message trimmed. The email prompt asks for the chosen
      tone, lists the recipient, role, company and links (each the given value or its
      placeholder) and ends with the signature; summary and plan carry their outlines. */
  function BuildPrompt(v: Variant, m: Mode, input: string, tone: Tone, l: Length): (r: string)
    ensures m != General ==> StartsWith(r, Base(v, TaskText(v, input), l))
    ensures m == General ==> (StartsWith(r, "User said: ") <==> IsGreeting(v, ChatText(v, input)))
    ensures m == General ==> Contains(r, Trim(ChatText(v, input)))
    ensures m == Mode.Email ==> EmailFacts(r, Extract(v, input).ctx, tone)
    ensures m == Summary ==> Contains(r, "# TL;DR") && Contains(r, "# Next Steps")
    ensures m == Plan ==> Contains(r, "# Goal") && Contains(r, "# Success Metrics")
  {
    var base := Base(v, TaskText(v, input), l);
    var greet := IsGreeting(v, ChatText(v, input));
    var said := Trim(ChatText(v, input));
    var ctx := Extract(v, input).ctx;
    PromptShape(m, base, ctx, tone, greet, said, Rules(m, greet));
    OutlineShape(m, base, ctx, tone, greet, said);
    Join(PromptLines(m, base, ctx, tone, greet, said, Rules(m, greet)), "\n")
  }

  /** A message that is not blank gives a prompt that is not blank: the structured prompts
      open with the task heading, and general chat quotes the message. */
  lemma PromptNotBlank(v: Variant, m: Mode, input: string, tone: Tone, l: Length)
    ensures Trim(input) != "" ==> Trim(BuildPrompt(v, m, input, tone, l)) != ""
  {
    if Trim(input) != "" {
      var task := TaskText(v, input);
      BaseOpens(v, task, l);
      ChatTextNotBlank(v, input);
      NotBlankFromShape(BuildPrompt(v, m, input, tone, l), Base(v, task, l), Trim(ChatText(v, input)), m == General);
    }
  }

  /** The base opens with a visible character, whatever the task. */
  lemma BaseOpens(v: Variant, task: string, l: Length)
    ensures Base(v, task, l) != [] && !IsSpace(Base(v, task, l)[0])
  {
    var head: string := "User task:\n";
    assert head[0] == 'U';
    HeadNotSpace(head, Details(v, task, l));
  }

  /** A text that starts with, or contains, a part opening with a visible character is not
      blank. */
  lemma NotBlankFromShape(r: string, b: string, said: string, general: bool)
    requires general ==> Contains(r, said) && said != [] && !IsSpace(said[0])
    requires !general ==> StartsWith(r, b) && b != [] && !IsSpace(b[0])
    ensures Trim(r) != ""
  {
    if general {
      var i :| 0 <= i <= |r| - |said| && OccursAt(r, said, i);
      assert r[i..i + |said|][0] == r[i];
      NotBlankAt(r, i);
    } else {
      assert r[..|b|][0] == r[0];
      NotBlankAt(r, 0);
    }
  }

  /** What general chat quotes is not blank when the message is not. */
  lemma ChatTextNotBlank(v: Variant, input: string)
    requires Trim(input) != ""
    ensures Trim(ChatText(v, input)) != "" && !IsSpace(Trim(ChatText(v, input))[0])
  {
    var task := Extract(v, input).task;
    if task != "" {
      assert TaskText(v, input) == task;
      TrimOfTrimmed(task);
    }
  }

  lemma NotBlankAt(r: string, i: nat)
    requires i < |r| && !IsSpace(r[i])
    ensures Trim(r) != ""
  {
    TrimEmptyIffBlank(r);
  }

  /** What the email prompt carries: the tone line, the context lines and the signature. */
  predicate EmailFacts(r: string, ctx: Ctx, tone: Tone) {
    && Contains(r, ToneRequest(tone))
    && Contains(r, "- Recipient: " + Shown(ctx, Recipient))
    && Contains(r, "- Role: " + Shown(ctx, Role))
    && Contains(r, "- Company: " + Shown(ctx, Company))
    && Contains(r, "- Links: Portfolio " + Shown(ctx, Portfolio) + " | GitHub " + Shown(ctx, Github))
    && EndsWith(r, "\n" + Shown(ctx, Name) + "\n" + (Shown(ctx, Field.Email) + " | " + Shown(ctx, Linkedin)))
  }

  lemma PromptShape(m: Mode, base: string, ctx: Ctx, tone: Tone, greet: bool, said: string, rules: seq<string>)
    ensures var r := Join(PromptLines(m, base, ctx, tone, greet, said, rules), "\n");
            && (m != General ==> StartsWith(r, base))
            && (m == General ==> (StartsWith(r, "User said: ") <==> greet) && Contains(r, said))
            && (m == Mode.Email ==> EmailFacts(r, ctx, tone))
  {
    var lines := PromptLines(m, base, ctx, tone, greet, said, rules);
    JoinStarts(lines, "\n");
    match m
    case Email => EmailShape(base, ctx, tone, rules);
    case Summary =>
    case Plan =>
    case General => ChatShape(greet, said, rules);
  }

  lemma OutlineShape(m: Mode, base: string, ctx: Ctx, tone: Tone, greet: bool, said: string)
    ensures var r := Join(PromptLines(m, base, ctx, tone, greet, said, Rules(m, greet)), "\n");
            && (m == Summary ==> Contains(r, "# TL;DR") && Contains(r, "# Next Steps"))
            && (m == Plan ==> Contains(r, "# Goal") && Contains(r, "# Success Metrics"))
  {
    if m == Summary {
      SummaryShape(base);
    } else if m == Plan {
      PlanShape(base);
    }
  }

  lemma SummaryShape(base: string)
    ensures var r := Join([base] + SummaryRules, "\n");
            StartsWith(r, base) && Contains(r, "# TL;DR") && Contains(r, "# Next Steps")
  {
    var lines := [base] + SummaryRules;
    JoinStarts(lines, "\n");
    assert lines[3] == "# TL;DR" && lines[6] == "# Next Steps";
    JoinHas(lines, "\n", 3);
    JoinHas(lines, "\n", 6);
  }

  lemma PlanShape(base: string)
    ensures var r := Join([base] + PlanRules, "\n");
            StartsWith(r, base) && Contains(r, "# Goal") && Contains(r, "# Success Metrics")
  {
    var lines := [base] + PlanRules;
    JoinStarts(lines, "\n");
    assert lines[6] == "# Goal" && lines[12] == "# Success Metrics";
    JoinHas(lines, "\n", 6);
    JoinHas(lines, "\n", 12);
  }

  lemma ChatShape(greet: bool, said: string, rules: seq<string>)
    ensures var r := Join([Opening(greet, said)] + rules, "\n");
            (StartsWith(r, "User said: ") <==> greet) && Contains(r, said)
  {
    var lines := [Opening(greet, said)] + rules;
    var r := Join(lines, "\n");
    JoinStarts(lines, "\n");
    OpeningPrefix(greet, said, r);
    OpeningQuotes(greet, said);
    JoinHas(lines, "\n", 0);
    ContainsTransitive(r, lines[0], said);
  }

  /** The opening contains the message as quoted. */
  lemma OpeningQuotes(greet: bool, said: string)
    ensures Contains(Opening(greet, said), said)
  {
    var head := if greet then "User said: " else "User message:\n";
    assert Opening(greet, said) == head + said + [];
    assert OccursAt(said, said, 0);
    ContainsWithin(head, said, [], said);
  }

  /** Whatever starts with the opening starts with "User said: " exactly for a greeting. */
  lemma OpeningPrefix(greet: bool, said: string, r: string)
    requires StartsWith(r, Opening(greet, said))
    ensures StartsWith(r, "User said: ") <==> greet
  {
    var o := Opening(greet, said);
    assert r[..|o|] == o;
    if greet {
      assert o[..11] == "User said: ";
      assert r[..11] == o[..11];
    } else {
      assert o[5] == 'm' && r[5] == o[5];
    }
  }

  lemma EmailShape(base: string, ctx: Ctx, tone: Tone, rules: seq<string>)
    ensures EmailFacts(Join(EmailHead(base, ctx, tone) + rules + Signature(ctx), "\n"), ctx, tone)
  {
    var head := EmailHead(base, ctx, tone);
    ToneLine(head, rules, Signature(ctx), tone);
    ContextLines(head, rules, Signature(ctx), ctx);
    TailLines(head, rules, Signature(ctx));
  }

  lemma ToneLine(head: seq<string>, rules: seq<string>, tail: seq<string>, tone: Tone)
    requires |head| == 9 && head[1] == ToneRequest(tone)
    ensures Contains(Join(head + rules + tail, "\n"), head[1])
  {
    HeadLine(head, rules, tail, 1);
  }

  lemma ContextLines(head: seq<string>, rules: seq<string>, tail: seq<string>, ctx: Ctx)
    requires |head| == 9
    ensures var r := Join(head + rules + tail, "\n");
            Contains(r, head[4]) && Contains(r, head[5]) && Contains(r, head[6]) && Contains(r, head[8])
  {
    HeadLine(head, rules, tail, 4);
    HeadLine(head, rules, tail, 5);
    HeadLine(head, rules, tail, 6);
    HeadLine(head, rules, tail, 8);
  }

  /** A list that ends with two lines, joined, ends with both of them. */
  lemma TailLines(head: seq<string>, middle: seq<string>, tail: seq<string>)
    requires |head| >= 1 && |tail| == 2
    ensures EndsWith(Join(head + middle + tail, "\n"), "\n" + tail[0] + "\n" + tail[1])
  {
    var lines := head + middle + tail;
    SignatureEnds(lines);
    assert lines[|lines| - 2] == tail[0] && lines[|lines| - 1] == tail[1];
  }

  /** A line of the head of a list appears in the joined list. */
  lemma HeadLine(head: seq<string>, middle: seq<string>, tail: seq<string>, i: nat)
    requires i < |head|
    ensures Contains(Join(head + middle + tail, "\n"), head[i])
  {
    JoinHas(head + middle + tail, "\n", i);
  }

  lemma SignatureEnds(lines: seq<string>)
    requires |lines| >= 3
    ensures EndsWith(Join(lines, "\n"), "\n" + lines[|lines| - 2] + "\n" + lines[|lines| - 1])
  {
    JoinEndsWithLastTwo(lines, "\n");
  }
}
