/** The request settings both backend variants accept: mode, tone and length, each clamped to
    its fixed set of names, and what they select: the token budget, the word range the prompt
    asks for, the sampling temperature and the system text. */
module Settings {
  import opened JsValue
  import opened LabelLine
  import opened Text

  datatype Mode = Email | Summary | Plan | General
  datatype Tone = Professional | Friendly | Urgent
  datatype Length = Short | Medium | Long

  function ModeName(m: Mode): string {
    match m
    case Email => "email"
    case Summary => "summary"
    case Plan => "plan"
    case General => "general"
  }

  function ToneName(t: Tone): string {
    match t
    case Professional => "professional"
    case Friendly => "friendly"
    case Urgent => "urgent"
  }

  function LengthName(l: Length): string {
    match l
    case Short => "short"
    case Medium => "medium"
    case Long => "long"
  }

  /** Distinct settings have distinct names (their first letters already differ). */
  lemma NamesDistinct()
    ensures forall a, b :: a != b ==> ModeName(a) != ModeName(b)
    ensures forall a, b :: a != b ==> ToneName(a) != ToneName(b)
    ensures forall a, b :: a != b ==> LengthName(a) != LengthName(b)
  {
    forall a: Mode, b: Mode | a != b ensures ModeName(a) != ModeName(b) {
      assert ModeName(a)[0] != ModeName(b)[0];
    }
    forall a: Tone, b: Tone | a != b ensures ToneName(a) != ToneName(b) {
      assert ToneName(a)[0] != ToneName(b)[0];
    }
    forall a: Length, b: Length | a != b ensures LengthName(a) != LengthName(b) {
      assert LengthName(a)[0] != LengthName(b)[0];
    }
  }

  /** `clampMode`: a request value that is exactly one of the mode names selects that mode
      (`includes` compares strictly, so only strings can match); anything else is `general`. */
  function ClampMode(v: Value): (m: Mode)
    ensures forall k :: v == Str(ModeName(k)) ==> m == k
    ensures (forall k :: v != Str(ModeName(k))) ==> m == General
  {
    NamesDistinct();
    if v == Str(ModeName(Email)) then Email
    else if v == Str(ModeName(Summary)) then Summary
    else if v == Str(ModeName(Plan)) then Plan
    else General
  }

  /** `clampTone`: one of the tone names, or `professional`. */
  function ClampTone(v: Value): (t: Tone)
    ensures forall k :: v == Str(ToneName(k)) ==> t == k
    ensures (forall k :: v != Str(ToneName(k))) ==> t == Professional
  {
    NamesDistinct();
    if v == Str(ToneName(Friendly)) then Friendly
    else if v == Str(ToneName(Urgent)) then Urgent
    else Professional
  }

  /** `clampLength`: one of the length names, or `medium`. */
  function ClampLength(v: Value): (l: Length)
    ensures forall k :: v == Str(LengthName(k)) ==> l == k
    ensures (forall k :: v != Str(LengthName(k))) ==> l == Medium
  {
    NamesDistinct();
    if v == Str(LengthName(Short)) then Short
    else if v == Str(LengthName(Long)) then Long
    else Medium
  }

  /** Position of a length in the order short, medium, long. */
  function LengthRank(l: Length): nat {
    match l
    case Short => 0
    case Medium => 1
    case Long => 2
  }

  /** `lengthToMaxTokens`, the same in both variants: 420 for short, 1100 for long, 750 for
      everything else (after clamping, that is medium). */
  function MaxTokens(l: Length): (n: nat)
    ensures l == Short <==> n == 420
    ensures l == Long <==> n == 1100
    ensures l == Medium <==> n == 750
  {
    match l
    case Short => 420
    case Medium => 750
    case Long => 1100
  }

  /** A longer length never gets a smaller token budget. */
  lemma MaxTokensMonotone(a: Length, b: Length)
    ensures LengthRank(a) <= LengthRank(b) <==> MaxTokens(a) <= MaxTokens(b)
  {
  }

  /** `lengthToWordRange`. The two variants ask for different word counts; only the lambda
      hedges with "roughly", the server's ranges start with the number. */
  function WordRange(v: Variant, l: Length): (r: string)
    ensures v == Lambda ==> StartsWith(r, "roughly ")
    ensures v == Server ==> r != "" && '0' <= r[0] <= '9'
  {
    if v == Server then
      if l == Short then "120-160 words" else if l == Long then "220-300 words" else "160-220 words"
    else
      "roughly " + (if l == Short then "60-120 words" else if l == Long then "220-420 words" else "120-220 words")
  }

  /** The variants never ask for the same word range. */
  lemma WordRangesDiffer(l: Length)
    ensures WordRange(Server, l) != WordRange(Lambda, l)
  {
    assert WordRange(Server, l)[0] != WordRange(Lambda, l)[0];
  }

  /** Within a variant, each length asks for its own word range. */
  lemma WordRangeDistinct(v: Variant, l1: Length, l2: Length)
    ensures WordRange(v, l1) == WordRange(v, l2) ==> l1 == l2
  {
    var r1, r2 := WordRange(v, l1), WordRange(v, l2);
    if l1 != l2 {
      if v == Lambda {
        assert r1[8] != r2[8];
      } else {
        assert r1[0] != r2[0] || r1[1] != r2[1];
      }
    }
  }

  /** The two sampling temperatures, kept symbolic: 0.4 for email, 0.2 otherwise. */
  datatype Temperature = EmailTemperature | DefaultTemperature

  function TemperatureFor(m: Mode): (t: Temperature)
    ensures t == EmailTemperature <==> m == Email
  {
    if m == Email then EmailTemperature else DefaultTemperature
  }

  // Each system text is written in short pieces (cheaper for the verifier than one long
  // literal); the first pieces tell the three apart.
  const EmailSystem: string :=
    "You are a helpful " + "assistant that writes concise, " + "human-sounding professional outreach " + "emails. Follow constraints exactly."
  const GeneralSystem: string :=
    "You are DINOVA, a helpful " + "chat assistant. Respond naturally. Do " + "not add headings/titles unless the user " + "requests structure."
  const StructuredSystem: string :=
    "You are DINOVA, a concise " + "professional assistant. Return " + "Markdown. Follow the requested " + "structure exactly. Avoid filler."

  /** The system text: one for email, one for general chat, and a shared one for the
      structured modes (summary and plan). */
  function SystemText(m: Mode): (s: string)
    ensures m == Email <==> s == EmailSystem
    ensures m == General <==> s == GeneralSystem
    ensures m == Summary || m == Plan <==> s == StructuredSystem
  {
    assert EmailSystem[8] != GeneralSystem[8] && EmailSystem[8] != StructuredSystem[8];
    assert GeneralSystem[18] != StructuredSystem[18];
    match m
    case Email => EmailSystem
    case General => GeneralSystem
    case Summary => StructuredSystem
    case Plan => StructuredSystem
  }
}
