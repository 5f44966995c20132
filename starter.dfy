/**
  The pure helpers of the player scaffold: `safe_name`, the built-in prompts,
  `render_player_prompt`, the calibration prompt choice, and the answer
  recorded for each calibration sample.
*/
module Starter {
  import opened Wrappers
  import opened Text
  import opened Normalize

  // ------------------------------------------------------------------ safe_name

  /** A character of the class `[a-zA-Z0-9._-]`. */
  predicate IsSafe(c: char) {
    'a' <= c <= 'z' || 'A' <= c <= 'Z' || '0' <= c <= '9' || c == '.' || c == '_' || c == '-'
  }

  predicate AllSafe(s: string) {
    forall i :: 0 <= i < |s| ==> IsSafe(s[i])
  }

  /** `re.sub(r"[^a-zA-Z0-9._-]+", "_", s)`; `inRun` says that the character
      before `s` was unsafe and has already been replaced. */
  function SafeNameFrom(s: string, inRun: bool): (r: string)
    ensures AllSafe(r)
    ensures |r| <= |s|
  {
    if s == [] then []
    else if IsSafe(s[0]) then [s[0]] + SafeNameFrom(s[1..], false)
    else if inRun then SafeNameFrom(s[1..], true)
    else ['_'] + SafeNameFrom(s[1..], true)
  }

  /** `safe_name(text)`. */
  function SafeName(text: string): string {
    SafeNameFrom(text, false)
  }

  lemma {:induction false} SafeNameFromSafe(s: string, inRun: bool)
    requires AllSafe(s)
    ensures SafeNameFrom(s, inRun) == s
  {
    if s != [] {
      SafeNameFromSafe(s[1..], false);
      assert s == [s[0]] + s[1..];
    }
  }

  /** `safe_name` leaves a string alone exactly when it is made of safe
      characters; hence it is idempotent. */
  lemma SafeNameFixedIff(s: string)
    ensures SafeName(s) == s <==> AllSafe(s)
    ensures SafeName(SafeName(s)) == SafeName(s)
  {
    if AllSafe(s) {
      SafeNameFromSafe(s, false);
    }
    SafeNameFromSafe(SafeName(s), false);
  }

  /** A safe character is copied. */
  lemma SafeNameKeeps(c: char, s: string)
    requires IsSafe(c)
    ensures SafeName([c] + s) == [c] + SafeName(s)
  {
    assert ([c] + s)[1..] == s;
  }

  lemma {:induction false} SafeNameSkipsRun(run: string, s: string)
    requires forall i :: 0 <= i < |run| ==> !IsSafe(run[i])
    ensures SafeNameFrom(run + s, true) == SafeNameFrom(s, true)
  {
    if run == [] {
      assert run + s == s;
    } else {
      assert (run + s)[0] == run[0];
      assert (run + s)[1..] == run[1..] + s;
      SafeNameSkipsRun(run[1..], s);
    }
  }

  /** A maximal run of unsafe characters becomes exactly one `_`. */
  lemma SafeNameReplacesRun(run: string, s: string)
    requires run != [] && forall i :: 0 <= i < |run| ==> !IsSafe(run[i])
    requires s == [] || IsSafe(s[0])
    ensures SafeName(run + s) == "_" + SafeName(s)
  {
    assert (run + s)[1..] == run[1..] + s;
    SafeNameSkipsRun(run[1..], s);
    if s != [] {
      assert SafeNameFrom(s, true) == [s[0]] + SafeNameFrom(s[1..], false);
    }
  }

  // -------------------------------------------------------------------- prompts

  const DayCalibrationPrompt: string :=
    "Return exactly one lowercase weekday name from this set: "
    + "monday tuesday wednesday thursday friday saturday sunday. "
    + "Output only the weekday."

  const FruitBPrompt: string :=
    "Return exactly one fruit that starts with the letter b. "
    + "Output only the fruit, no punctuation, no explanation."

  const PlayerIntro: string := "You are playing Scattergories. " + "Letter: "
  const PlayerMiddle: string := ". " + "Category: "
  const PlayerOutro: string :=
    ". " + "Return exactly one answer " + "that starts with the required letter. "
    + "Output only lowercase letters and spaces."

  /** `build_player_prompt(letter, category)`. */
  function BuildPlayerPrompt(letter: string, category: string): string {
    PlayerIntro + letter + PlayerMiddle + category + PlayerOutro
  }

  predicate OccursAt(s: string, part: string, i: int) {
    0 <= i <= |s| - |part| && s[i..i + |part|] == part
  }

  ghost predicate Contains(s: string, part: string) {
    exists i :: OccursAt(s, part, i)
  }

  /** The player prompt embeds the letter and the category. */
  lemma PlayerPromptEmbeds(letter: string, category: string)
    ensures Contains(BuildPlayerPrompt(letter, category), letter)
    ensures Contains(BuildPlayerPrompt(letter, category), category)
  {
    var p := BuildPlayerPrompt(letter, category);
    var i := |PlayerIntro|;
    var j := |PlayerIntro| + |letter| + |PlayerMiddle|;
    assert OccursAt(p, letter, i);
    assert OccursAt(p, category, j);
  }

  datatype RenderError =
    | MissingPlaceholder(name: string)   // KeyError, re-raised as ValueError
    | FormatError(reason: string)        // a ValueError or IndexError raised by str.format
    | Unsupported(field: string)         // conversion, format spec, index or attribute

  /** `template.format(letter=..., category=...)` for templates whose fields are
      bare names: `{{` and `}}` are literal braces, `{letter}` and
      `{category}` are replaced, any other name is a missing key, an empty or
      numeric field asks for a positional argument that is not there. */
  function Format(t: string, letter: string, category: string): (r: Result<string, RenderError>)
    decreases |t|
  {
    if t == [] then Ok([])
    else if t[0] == '{' then
      if |t| >= 2 && t[1] == '{' then Prepend("{", Format(t[2..], letter, category))
      else if |t| == 1 then Err(FormatError("Single '{' encountered in format string"))
      else
        var name := TakeUntil(t[1..], IsCloseBrace);
        if |name| == |t| - 1 then Err(FormatError("expected '}' before end of string"))
        else
          var field := FieldValue(name, letter, category);
          if field.Err? then Err(field.error) else Prepend(field.value, Format(t[|name| + 2..], letter, category))
    else if t[0] == '}' then
      if |t| >= 2 && t[1] == '}' then Prepend("}", Format(t[2..], letter, category))
      else Err(FormatError("Single '}' encountered in format string"))
    else Prepend([t[0]], Format(t[1..], letter, category))
  }

  /** A template that ends in a lone brace fails with `str.format`'s message
      for it, whatever text comes first. */
  lemma FormatLoneBrace(lit: string, letter: string, category: string)
    requires BraceFree(lit)
    ensures Format(lit + "{", letter, category) == Err(FormatError("Single '{' encountered in format string"))
    ensures Format(lit + "}", letter, category) == Err(FormatError("Single '}' encountered in format string"))
  {
    FormatLiteral(lit, "{", letter, category);
    FormatLiteral(lit, "}", letter, category);
  }

  /** The text of the field `{name}`. The two names are tested first, which
      gives the same results: neither holds a conversion, spec, attribute or
      index character. */
  function FieldValue(name: string, letter: string, category: string): Result<string, RenderError> {
    if name == "letter" then Ok(letter)
    else if name == "category" then Ok(category)
    else if exists i :: 0 <= i < |name| && name[i] in "!:.[{" then Err(Unsupported(name))
    else if name == "" || forall i :: 0 <= i < |name| ==> '0' <= name[i] <= '9' then
      Err(FormatError("positional field"))
    else Err(MissingPlaceholder(name))
  }

  function Prepend(s: string, r: Result<string, RenderError>): Result<string, RenderError> {
    match r
    case Ok(v) => Ok(s + v)
    case Err(e) => Err(e)
  }

  predicate BraceFree(s: string) {
    forall i :: 0 <= i < |s| ==> s[i] != '{' && s[i] != '}'
  }

  /** Text without braces is copied as it is, in front of whatever follows. */
  lemma {:induction false} FormatLiteral(lit: string, t: string, letter: string, category: string)
    requires BraceFree(lit)
    ensures Format(lit + t, letter, category) == Prepend(lit, Format(t, letter, category))
  {
    if lit == [] {
      assert lit + t == t;
      match Format(t, letter, category)
      case Ok(v) => assert lit + v == v;
      case Err(_) =>
    } else {
      assert (lit + t)[0] == lit[0];
      assert (lit + t)[1..] == lit[1..] + t;
      FormatLiteral(lit[1..], t, letter, category);
      match Format(t, letter, category)
      case Ok(v) => assert [lit[0]] + (lit[1..] + v) == lit + v;
      case Err(_) =>
    }
  }

  predicate IsCloseBrace(c: char) {
    c == '}'
  }

  lemma {:induction false} TakeUntilStops(a: string, x: char, b: string, p: char -> bool)
    requires forall i :: 0 <= i < |a| ==> !p(a[i])
    requires p(x)
    ensures TakeUntil(a + [x] + b, p) == a
  {
    if a != [] {
      assert (a + [x] + b)[1..] == a[1..] + [x] + b;
      TakeUntilStops(a[1..], x, b, p);
    }
  }

  /** The field of `"{" + name + "}" + t` is `name`, and `t` follows it. */
  lemma FieldSplit(name: string, t: string)
    requires forall i :: 0 <= i < |name| ==> name[i] != '}'
    ensures var s := "{" + name + "}" + t;
            && TakeUntil(s[1..], IsCloseBrace) == name
            && s[|name| + 2..] == t
  {
    var s := "{" + name + "}" + t;
    assert s[1..] == name + ['}'] + t;
    TakeUntilStops(name, '}', t, IsCloseBrace);
  }

  /** A field `{name}` is replaced by its text, after which the rest of the
      template is formatted. */
  lemma FormatField(name: string, t: string, letter: string, category: string)
    requires forall i :: 0 <= i < |name| ==> name[i] != '{' && name[i] != '}'
    ensures Format("{" + name + "}" + t, letter, category)
            == var field := FieldValue(name, letter, category);
               if field.Err? then Err(field.error) else Prepend(field.value, Format(t, letter, category))
  {
    var s := "{" + name + "}" + t;
    FieldSplit(name, t);
    assert s[0] == '{' && s[1] != '{';
  }

  lemma FormatLetter(t: string, letter: string, category: string)
    ensures Format("{" + "letter" + "}" + t, letter, category) == Prepend(letter, Format(t, letter, category))
  {
    FormatField("letter", t, letter, category);
    assert FieldValue("letter", letter, category) == Ok(letter);
  }

  lemma FormatCategory(t: string, letter: string, category: string)
    ensures Format("{" + "category" + "}" + t, letter, category) == Prepend(category, Format(t, letter, category))
  {
    FormatField("category", t, letter, category);
    assert FieldValue("category", letter, category) == Ok(category);
  }

  /** A field naming anything but `letter` and `category` is a missing
      placeholder, whatever follows it. */
  lemma FormatMissing(name: string, t: string, letter: string, category: string)
    requires name != "letter" && name != "category"
    requires forall i :: 0 <= i < |name| ==> name[i] !in "!:.[{}"
    requires exists i :: 0 <= i < |name| && !('0' <= name[i] <= '9')
    ensures Format("{" + name + "}" + t, letter, category) == Err(MissingPlaceholder(name))
  {
    FormatField(name, t, letter, category);
  }

  lemma BraceFreeConcat(a: string, b: string)
    requires BraceFree(a) && BraceFree(b)
    ensures BraceFree(a + b)
  {
    assert forall i :: 0 <= i < |a + b| ==> (a + b)[i] == if i < |a| then a[i] else b[i - |a|];
  }

  /** A template made of brace-free text around `{letter}` and `{category}`
      renders to that text with the letter and the category in their place. */
  lemma {:induction false} FormatTwoFields(a: string, b: string, c: string, letter: string, category: string)
    requires BraceFree(a) && BraceFree(b) && BraceFree(c)
    ensures Format(a + "{letter}" + b + "{category}" + c, letter, category) == Ok(a + letter + b + category + c)
  {
    var lf, cf := "{" + "letter" + "}", "{" + "category" + "}";
    assert lf == "{letter}" && cf == "{category}";
    var t3 := cf + c;
    var t2 := b + t3;
    var t1 := lf + t2;
    FormatLiteral(c, [], letter, category);
    assert c + [] == c;
    FormatCategory(c, letter, category);
    assert Format(t3, letter, category) == Ok(category + c);
    FormatLiteral(b, t3, letter, category);
    FormatLetter(t2, letter, category);
    assert Format(t1, letter, category) == Ok(letter + (b + (category + c)));
    FormatLiteral(a, t1, letter, category);
    Assoc5(a, lf, b, cf, c);
    Assoc5(a, letter, b, category, c);
  }

  lemma Assoc5(a: string, b: string, c: string, d: string, e: string)
    ensures a + b + c + d + e == a + (b + (c + (d + e)))
  {
  }

  lemma IntroBraceFree()
    ensures BraceFree(PlayerIntro)
  {
    var i1, i2 := "You are playing Scattergories. ", "Letter: ";
    assert BraceFree(i1) && BraceFree(i2);
    BraceFreeConcat(i1, i2);
  }

  lemma MiddleBraceFree()
    ensures BraceFree(PlayerMiddle)
  {
    var m1, m2 := ". ", "Category: ";
    assert BraceFree(m1) && BraceFree(m2);
    BraceFreeConcat(m1, m2);
  }

  lemma OutroBraceFree()
    ensures BraceFree(PlayerOutro)
  {
    var m1, o1, o2, o3 := ". ", "Return exactly one answer ", "that starts with the required letter. ",
                          "Output only lowercase letters and spaces.";
    assert BraceFree(m1);
    assert BraceFree(o1);
    RuleBraceFree();
    FormatRuleBraceFree();
    BraceFreeConcat(m1, o1);
    BraceFreeConcat(m1 + o1, o2);
    BraceFreeConcat(m1 + o1 + o2, o3);
  }

  lemma RuleBraceFree()
    ensures BraceFree("that starts with the required letter. ")
  {
  }

  lemma FormatRuleBraceFree()
    ensures BraceFree("Output only lowercase letters and spaces.")
  {
  }

  /** The built-in player prompt is what the template with `{letter}` and
      `{category}` in place of the letter and the category renders to. */
  lemma DefaultPromptIsTemplate(letter: string, category: string)
    ensures Format(PlayerIntro + "{letter}" + PlayerMiddle + "{category}" + PlayerOutro, letter, category)
            == Ok(BuildPlayerPrompt(letter, category))
  {
    IntroBraceFree();
    MiddleBraceFree();
    OutroBraceFree();
    FormatTwoFields(PlayerIntro, PlayerMiddle, PlayerOutro, letter, category);
  }

  /** `render_player_prompt`: the built-in prompt without a template,
      otherwise the formatted template. */
  function RenderPlayerPrompt(letter: string, category: string, template: Option<string>): Result<string, RenderError> {
    match template
    case None => Ok(BuildPlayerPrompt(letter, category))
    case Some(t) => Format(t, letter, category)
  }

  /** A template without braces is the prompt itself. */
  lemma RenderLiteralTemplate(letter: string, category: string, t: string)
    requires BraceFree(t)
    ensures RenderPlayerPrompt(letter, category, Some(t)) == Ok(t)
  {
    FormatLiteral(t, [], letter, category);
    assert t + [] == t;
  }

  // --------------------------------------------------------- calibration prompts

  datatype PromptError = UnknownTask(task: string)

  /** `get_calibration_prompt`; `promptFile` is the text of the prompt file
      when one is named. */
  function CalibrationPrompt(task: string, promptFile: Option<string>): (r: Result<string, PromptError>)
    ensures r.Err? <==> promptFile.None? && task != "day" && task != "fruitb"
    ensures promptFile.Some? ==> r == Ok(Strip(promptFile.value))
  {
    if promptFile.Some? then Ok(Strip(promptFile.value))
    else if task == "day" then Ok(DayCalibrationPrompt)
    else if task == "fruitb" then Ok(FruitBPrompt)
    else Err(UnknownTask(task))
  }

  // --------------------------------------------------------- recorded answers

  /** `ans.split()[0] if ans else ""`, for an already normalised `ans`. */
  function FirstToken(ans: string): string {
    if ans == [] then [] else TakeUntil(ans, IsSpace)
  }

  /** The answer recorded for a sample of `task`: the normalised text, cut to
      its first word for the weekday task. */
  function RecordedAnswer(task: string, raw: string): string {
    var ans := NormalizeAnswer(raw);
    if task == "day" then FirstToken(ans) else ans
  }

  /** `r` is the first word of the canonical text `ans`: its longest prefix
      without whitespace, cut at a space, and empty only when `ans` is. */
  predicate DayToken(ans: string, r: string) {
    && |r| <= |ans| && r == ans[..|r|]
    && (forall i :: 0 <= i < |r| ==> !IsSpace(r[i]))
    && (|r| < |ans| ==> ans[|r|] == ' ')
    && (r == "" <==> ans == "")
  }

  /** For the weekday task the recorded answer is the first word of the
      normalised text: a prefix without whitespace that stops at a space or
      at the end, empty exactly when normalisation is. */
  lemma DayAnswerShape(raw: string)
    ensures var r := RecordedAnswer("day", raw);
            && r == NormalizeAnswer(raw)[..|r|]
            && (forall i :: 0 <= i < |r| ==> !IsSpace(r[i]))
            && (|r| < |NormalizeAnswer(raw)| ==> NormalizeAnswer(raw)[|r|] == ' ')
            && (r == "" <==> NormalizeAnswer(raw) == "")
  {
    var ans := NormalizeAnswer(raw);
    NormalizeIsCanonical(raw);
    if ans != [] {
      assert !IsSpace(ans[0]);
      assert TakeUntil(ans, IsSpace) != [];
    }
  }

  /** Every reply's weekday answer is the first word of its normalised text. */
  lemma DayAnswers()
    ensures forall raw :: DayToken(NormalizeAnswer(raw), RecordedAnswer("day", raw))
  {
    forall raw
      ensures DayToken(NormalizeAnswer(raw), RecordedAnswer("day", raw))
    {
      DayAnswerShape(raw);
    }
  }

  /** `args.player_id or safe_name(args.model)`. */
  function PlayerIdFor(given: Option<string>, model: string): (p: string)
    ensures given.Some? && given.value != "" ==> p == given.value
    ensures (given.None? || given.value == "") ==> p == SafeName(model) && AllSafe(p)
  {
    if given.Some? && given.value != "" then given.value else SafeName(model)
  }
}
