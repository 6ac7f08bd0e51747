/**
 * `mc\essay\Task`: an assignment (name, rubric, description, maximum
 * score and prompt template) and the prompt built from it for one essay.
 *
 * `buildPrompt` calls `str_replace` with six search strings, which PHP
 * applies one after another to the whole text: text inserted by one
 * replacement is scanned by the replacements that follow it. Templates
 * are described here by their pieces (literal text and `{{name}}`
 * placeholders) to state what the six passes compute.
 */
module EssayTask {
  import opened Wrappers
  import opened PhpValues
  import Strings
  import Assoc

  /** The fields `Task` keeps; the object is never changed after construction. */
  datatype Task = Task(
    taskName: string,
    rubric: string,
    taskDescription: string,
    maxScore: int,
    promptTemplate: string)

  /** A template piece: literal text, or the placeholder `{{name}}`. */
  datatype Piece = Text(text: string) | Slot(name: string)

  /** The placeholder token for `name`. */
  function Token(name: string): (t: string)
    ensures |t| == |name| + 4 && t[..2] == "{{" && t[2..|name| + 2] == name && t[|name| + 2..] == "}}"
  {
    "{{" + name + "}}"
  }

  /** A placeholder name: non-empty, without braces. */
  predicate GoodName(name: string)
  {
    name != [] && '{' !in name && '}' !in name
  }

  /** Literal pieces hold no '{' and placeholder names are good, so the pieces of a text are unambiguous. */
  predicate WellFormed(ps: seq<Piece>)
  {
    forall i :: 0 <= i < |ps| ==> (if ps[i].Text? then '{' !in ps[i].text else GoodName(ps[i].name))
  }

  /**
   * The text of a template in which each placeholder bound in `env` is
   * replaced by its value (the first binding of a name counts), in one
   * pass; unbound placeholders stay as they are.
   */
  function Instantiate(ps: seq<Piece>, env: seq<(string, string)>): string
  {
    if ps == [] then "" else Value(ps[0], env) + Instantiate(ps[1..], env)
  }

  /** The text one piece stands for under `env`. */
  function Value(p: Piece, env: seq<(string, string)>): string
  {
    match p
    case Text(t) => t
    case Slot(n) => (match Assoc.Lookup(env, n) case Some(v) => v case None => Token(n))
  }

  /** Instantiating a template concatenates the values of its pieces. */
  lemma {:induction false} InstantiateConcat(ps: seq<Piece>, env: seq<(string, string)>, xs: seq<string>)
    requires |ps| == |xs| && forall i :: 0 <= i < |ps| ==> Value(ps[i], env) == xs[i]
    ensures Instantiate(ps, env) == Strings.Concat(xs)
  {
    if ps != [] {
      InstantiateConcat(ps[1..], env, xs[1..]);
    }
  }

  /** The text of a template. */
  function Render(ps: seq<Piece>): string
  {
    Instantiate(ps, [])
  }

  /** The placeholders named `name` turned into the literal `value`. */
  function Fill(ps: seq<Piece>, name: string, value: string): (qs: seq<Piece>)
    ensures |qs| == |ps|
    ensures forall i :: 0 <= i < |ps| ==> qs[i] == (if ps[i] == Slot(name) then Text(value) else ps[i])
  {
    if ps == [] then [] else [if ps[0] == Slot(name) then Text(value) else ps[0]] + Fill(ps[1..], name, value)
  }

  /** `str_replace($from, $to, $s)` with arrays: each (placeholder, value) pair in order, over the whole text. */
  function ReplaceEach(s: string, pairs: seq<(string, string)>): string
    decreases |pairs|
  {
    if pairs == [] then s
    else ReplaceEach(Strings.ReplaceAll(s, Token(pairs[0].0), pairs[0].1), pairs[1..])
  }

  /**
   * The literal parts of the default prompt template. The template's line
   * breaks are CRLF (`"\r\n"`); the break before the closing marker is not
   * part of the string.
   */
  const HEADING := "# Essay Task: "
  const ASSESS_1 := "\r\n\r\n\r\nPlease assess the "
  const ASSESS_2 := "student response based on "
  const ASSESS_3 := "the below rubric.\r\nProvide "
  const ASSESS_4 := "scores for each criterion "
  const ASSESS_5 := "in the table format.\r\n\r\n"
  const TABLE_1 := "Table Format:\r\n\r\n"
  const TABLE_2 := "| Criterion | Score |\r\n"
  const TABLE_3 := "|-----------|-------|\r\n"
  const INSTRUCTIONS := ASSESS_1 + ASSESS_2 + ASSESS_3 + ASSESS_4 + ASSESS_5 + TABLE_1 + TABLE_2 + TABLE_3
  const LIMIT_1 := "\r\n\r\nMake sure the total "
  const LIMIT_2 := "score does not exceed "
  const LIMIT := LIMIT_1 + LIMIT_2
  const POINTS_1 := " points.\r\n\r\n"
  const POINTS_2 := "## Task Description\r\n\r\n"
  const POINTS := POINTS_1 + POINTS_2
  const RUBRIC_HEADING := "\r\n\r\n## Rubric\r\n\r\n"
  const RESPONSE_HEADING := "\r\n\r\n## Student Response\r\n\r\n"

  /** The default prompt template, piece by piece. */
  const PROMPT_PIECES: seq<Piece> := [
    Text(HEADING), Slot("task_name"), Text(INSTRUCTIONS), Slot("score_formatting"),
    Text(LIMIT), Slot("max_score"), Text(POINTS), Slot("task_description"),
    Text(RUBRIC_HEADING), Slot("rubric"), Text(RESPONSE_HEADING), Slot("student_response")]

  /** `Task::PROMPT_TEMPLATE`. */
  const PROMPT_TEMPLATE: string := Render(PROMPT_PIECES)

  /** `Task::RUBRIC`: four criteria of five points each. */
  const RUBRIC: string :=
    "| Criterion       | Max Score |\r\n|-----------------|-----------|\r\n"
    + "| Clarity         | 5         |\r\n| Coherence       | 5         |\r\n"
    + "| Relevance       | 5         |\r\n| Grammar         | 5         |"

  /** The value given to `{{score_formatting}}`. */
  const SCORE_FORMATTING: string := "| criterion |       |"

  /** The constructor: `$task[key] ?? default` for each field; an empty template (PHP `empty`) selects the default one. */
  function NewTask(config: JValue, template: string): (t: Task)
    ensures Member(config, "task_name").None? ==> t.taskName == "A task"
    ensures Member(config, "rubric").None? ==> t.rubric == RUBRIC
    ensures Member(config, "task_description").None? ==> t.taskDescription == ""
    ensures Member(config, "max_score").None? ==> t.maxScore == 100
    ensures forall s :: Member(config, "task_name") == Some(JStr(s)) ==> t.taskName == s
    ensures forall s :: Member(config, "rubric") == Some(JStr(s)) ==> t.rubric == s
    ensures forall s :: Member(config, "task_description") == Some(JStr(s)) ==> t.taskDescription == s
    ensures forall n :: Member(config, "max_score") == Some(JInt(n)) ==> t.maxScore == n
    ensures t.promptTemplate == if EmptyString(template) then PROMPT_TEMPLATE else template
  {
    Task(
      StringOr(config, "task_name", "A task"),
      StringOr(config, "rubric", RUBRIC),
      StringOr(config, "task_description", ""),
      IntOr(config, "max_score", 100),
      if !EmptyString(template) then template else PROMPT_TEMPLATE)
  }

  /** The six (placeholder, value) pairs of `buildPrompt`, in its order. */
  function Replacements(task: Task, essay: string): seq<(string, string)>
  {
    [("task_name", task.taskName),
     ("student_response", essay),
     ("rubric", task.rubric),
     ("task_description", task.taskDescription),
     ("max_score", Strings.IntToString(task.maxScore)),
     ("score_formatting", SCORE_FORMATTING)]
  }

  /** `buildPrompt($studentEssay)`. */
  function BuildPrompt(task: Task, essay: string): string
  {
    ReplaceEach(task.promptTemplate, Replacements(task, essay))
  }

  // ---------------------------------------------------------------------
  // One replacement pass over a well-formed template.

  /** A token never starts at the opening brace of a different token. */
  lemma TokenMismatch(m: string, n: string, rest: string)
    requires GoodName(m) && GoodName(n) && m != n
    ensures !Strings.StartsAt(Token(m) + rest, 0, Token(n))
  {
    var s, t := Token(m) + rest, Token(n);
    if |t| <= |s| {
      var j: nat;
      if |m| == |n| {
        assert !(forall k :: 0 <= k < |m| ==> m[k] == n[k]);
        var k :| 0 <= k < |m| && m[k] != n[k];
        j := k + 2;
      } else if |m| < |n| {
        j := |m| + 2;
      } else {
        j := |n| + 2;
      }
      assert j < |t| && s[j] != t[j];
      assert s[..|t|][j] != t[j];
    }
  }

  /** Replacing `{{name}}` by `value` in the text of a template fills the placeholders named `name`. */
  lemma {:induction false} ReplaceAllFill(ps: seq<Piece>, name: string, value: string)
    requires WellFormed(ps) && GoodName(name)
    ensures Strings.ReplaceAll(Render(ps), Token(name), value) == Render(Fill(ps, name, value))
  {
    var pat := Token(name);
    if ps == [] {
    } else {
      var rest := Render(ps[1..]);
      assert WellFormed(ps[1..]) by {
        forall i | 0 <= i < |ps[1..]| ensures ps[1..][i] == ps[i + 1] {}
      }
      ReplaceAllFill(ps[1..], name, value);
      var fs := Fill(ps, name, value);
      assert fs[1..] == Fill(ps[1..], name, value);
      match ps[0]
      case Text(t) =>
        assert Render(ps) == t + rest;
        Strings.ReplaceAllSkipText(t, rest, pat, value);
      case Slot(m) =>
        assert Render(ps) == Token(m) + rest;
        if m == name {
          Strings.ReplaceAllLead(pat, value, rest);
        } else {
          forall i: nat | i < |Token(m)| ensures !Strings.StartsAt(Token(m) + rest, i, pat) {
            if i == 0 {
              TokenMismatch(m, name, rest);
            } else {
              // the character at i, or at i + 1 after the first brace, is not a '{'
              var s, k := Token(m) + rest, if i == 1 then 1 else 0;
              assert s[i + k] != '{' && pat[k] == '{';
              if i + |pat| <= |s| {
                assert s[i..i + |pat|][k] != pat[k];
              }
            }
          }
          Strings.ReplaceAllSkip(Token(m), rest, pat, value);
        }
    }
  }

  /** Filling `name` and then instantiating equals instantiating with `name` bound first. */
  lemma {:induction false} FillInstantiate(ps: seq<Piece>, name: string, value: string, env: seq<(string, string)>)
    ensures Instantiate(Fill(ps, name, value), env) == Instantiate(ps, [(name, value)] + env)
  {
    if ps != [] {
      FillInstantiate(ps[1..], name, value, env);
      assert Fill(ps, name, value)[1..] == Fill(ps[1..], name, value);
    }
  }

  /**
   * When no value brings in a '{', the six passes of `str_replace`
   * compute the one-pass substitution of the template's placeholders.
   */
  lemma {:induction false} ReplaceEachInstantiate(ps: seq<Piece>, pairs: seq<(string, string)>)
    requires WellFormed(ps)
    requires forall i :: 0 <= i < |pairs| ==> GoodName(pairs[i].0) && '{' !in pairs[i].1
    ensures ReplaceEach(Render(ps), pairs) == Instantiate(ps, pairs)
    decreases |pairs|
  {
    if pairs != [] {
      var (n, v) := pairs[0];
      ReplaceAllFill(ps, n, v);
      var qs := Fill(ps, n, v);
      assert WellFormed(qs);
      ReplaceEachInstantiate(qs, pairs[1..]);
      FillInstantiate(ps, n, v, pairs[1..]);
      assert [(n, v)] + pairs[1..] == pairs;
    }
  }

  // ---------------------------------------------------------------------
  // What buildPrompt produces.

  /** The values `buildPrompt` inserts bring in no '{'. */
  predicate BraceFree(task: Task, essay: string)
  {
    '{' !in task.taskName && '{' !in essay && '{' !in task.rubric && '{' !in task.taskDescription
  }

  /** The pairs from the `k`-th on name good placeholders and bring in no '{' when their values do not. */
  lemma ReplacementsGood(task: Task, essay: string, k: nat)
    requires k <= 6
    requires k <= 0 ==> '{' !in task.taskName
    requires k <= 1 ==> '{' !in essay
    requires k <= 2 ==> '{' !in task.rubric
    requires k <= 3 ==> '{' !in task.taskDescription
    ensures var pairs := Replacements(task, essay)[k..];
      forall i :: 0 <= i < |pairs| ==> GoodName(pairs[i].0) && '{' !in pairs[i].1
  {
    Strings.IntToStringHasNoBrace(task.maxScore);
    PlaceholderNamesGood();
    var all := Replacements(task, essay);
    forall i | k <= i < 6 ensures GoodName(all[i].0) && '{' !in all[i].1 {
    }
  }

  /** For a template given by its pieces, and brace-free values, the prompt is the one-pass substitution. */
  lemma BuildPromptSinglePass(task: Task, essay: string, ps: seq<Piece>)
    requires WellFormed(ps) && task.promptTemplate == Render(ps)
    requires BraceFree(task, essay)
    ensures BuildPrompt(task, essay) == Instantiate(ps, Replacements(task, essay))
  {
    ReplacementsGood(task, essay, 0);
    assert Replacements(task, essay)[0..] == Replacements(task, essay);
    ReplaceEachInstantiate(ps, Replacements(task, essay));
  }

  /** A template holding none of the placeholders is returned unchanged. */
  lemma {:induction false} ReplaceEachAbsent(s: string, pairs: seq<(string, string)>)
    requires forall i :: 0 <= i < |pairs| ==> !Strings.Occurs(s, Token(pairs[i].0))
    ensures ReplaceEach(s, pairs) == s
  {
    if pairs != [] {
      Strings.ReplaceAllAbsent(s, Token(pairs[0].0), pairs[0].1);
      ReplaceEachAbsent(s, pairs[1..]);
    }
  }

  // Each literal part of the default template holds no '{'.
  lemma HeadingBraceFree() ensures '{' !in HEADING {}
  lemma Assess1BraceFree() ensures '{' !in ASSESS_1 {}
  lemma Assess2BraceFree() ensures '{' !in ASSESS_2 {}
  lemma Assess3BraceFree() ensures '{' !in ASSESS_3 {}
  lemma Assess4BraceFree() ensures '{' !in ASSESS_4 {}
  lemma Assess5BraceFree() ensures '{' !in ASSESS_5 {}
  lemma Table1BraceFree() ensures '{' !in TABLE_1 {}
  lemma Table2BraceFree() ensures '{' !in TABLE_2 {}
  lemma Table3BraceFree() ensures '{' !in TABLE_3 {}
  lemma Limit1BraceFree() ensures '{' !in LIMIT_1 {}
  lemma Limit2BraceFree() ensures '{' !in LIMIT_2 {}
  lemma Points1BraceFree() ensures '{' !in POINTS_1 {}
  lemma Points2BraceFree() ensures '{' !in POINTS_2 {}
  lemma RubricHeadingBraceFree() ensures '{' !in RUBRIC_HEADING {}
  lemma ResponseHeadingBraceFree() ensures '{' !in RESPONSE_HEADING {}

  /** The assessment instructions between the task name and the score table hold no '{'. */
  lemma InstructionsBraceFree()
    ensures '{' !in INSTRUCTIONS
  {
    Assess1BraceFree();
    Assess2BraceFree();
    Assess3BraceFree();
    Assess4BraceFree();
    Assess5BraceFree();
    Table1BraceFree();
    Table2BraceFree();
    Table3BraceFree();
  }

  /** The sentence before the maximum score holds no '{'. */
  lemma LimitBraceFree()
    ensures '{' !in LIMIT
  {
    Limit1BraceFree();
    Limit2BraceFree();
  }

  /** The text after the maximum score holds no '{'. */
  lemma PointsBraceFree()
    ensures '{' !in POINTS
  {
    Points1BraceFree();
    Points2BraceFree();
  }

  /** The rubric and response headings hold no '{'. */
  lemma HeadingsBraceFree()
    ensures '{' !in RUBRIC_HEADING && '{' !in RESPONSE_HEADING
  {
    RubricHeadingBraceFree();
    ResponseHeadingBraceFree();
  }

  // Each placeholder name of the default template is a good name.
  lemma TaskNameGood() ensures GoodName("task_name") {}
  lemma ScoreFormattingGood() ensures GoodName("score_formatting") {}
  lemma MaxScoreGood() ensures GoodName("max_score") {}
  lemma TaskDescriptionGood() ensures GoodName("task_description") {}
  lemma RubricGood() ensures GoodName("rubric") {}
  lemma StudentResponseGood() ensures GoodName("student_response") {}

  /** The six placeholder names of the default template are good names. */
  lemma PlaceholderNamesGood()
    ensures GoodName("task_name") && GoodName("score_formatting") && GoodName("max_score")
    ensures GoodName("task_description") && GoodName("rubric") && GoodName("student_response")
  {
    TaskNameGood();
    ScoreFormattingGood();
    MaxScoreGood();
    TaskDescriptionGood();
    RubricGood();
    StudentResponseGood();
  }

  /** The template pieces of the default prompt are well formed. */
  lemma PromptPiecesWellFormed()
    ensures WellFormed(PROMPT_PIECES)
  {
    HeadingBraceFree();
    InstructionsBraceFree();
    LimitBraceFree();
    PointsBraceFree();
    HeadingsBraceFree();
    PlaceholderNamesGood();
  }

  /** Each of the six placeholder names is bound to its own value. */
  lemma ReplacementsLookup(task: Task, essay: string)
    ensures var env := Replacements(task, essay);
      Assoc.Lookup(env, "task_name") == Some(task.taskName)
      && Assoc.Lookup(env, "student_response") == Some(essay)
      && Assoc.Lookup(env, "rubric") == Some(task.rubric)
      && Assoc.Lookup(env, "task_description") == Some(task.taskDescription)
      && Assoc.Lookup(env, "max_score") == Some(Strings.IntToString(task.maxScore))
      && Assoc.Lookup(env, "score_formatting") == Some(SCORE_FORMATTING)
  {
    var env := Replacements(task, essay);
    assert Assoc.Lookup(env, "task_name") == Some(task.taskName);
    assert Assoc.Lookup(env[1..][1..][1..][1..][1..], "score_formatting") == Some(SCORE_FORMATTING);
    assert "score_formatting"[0] != "task_description"[0] && "score_formatting"[1] != "student_response"[1];
    assert Assoc.Lookup(env[1..][1..][1..][1..], "score_formatting") == Some(SCORE_FORMATTING);
    assert Assoc.Lookup(env[1..][1..][1..], "score_formatting") == Some(SCORE_FORMATTING);
    assert Assoc.Lookup(env[1..][1..], "score_formatting") == Some(SCORE_FORMATTING);
    assert Assoc.Lookup(env[1..], "score_formatting") == Some(SCORE_FORMATTING);
    assert Assoc.Lookup(env, "score_formatting") == Some(SCORE_FORMATTING);
    assert Assoc.Lookup(env[1..][1..][1..][1..], "max_score") == Some(Strings.IntToString(task.maxScore));
    assert "max_score"[0] != "task_name"[0];
    assert Assoc.Lookup(env[1..][1..][1..], "max_score") == Some(Strings.IntToString(task.maxScore));
    assert Assoc.Lookup(env[1..][1..], "max_score") == Some(Strings.IntToString(task.maxScore));
    assert Assoc.Lookup(env[1..], "max_score") == Some(Strings.IntToString(task.maxScore));
    assert Assoc.Lookup(env, "max_score") == Some(Strings.IntToString(task.maxScore));
    assert Assoc.Lookup(env[1..][1..][1..], "task_description") == Some(task.taskDescription);
    assert "task_description"[0] != "student_response"[0];
    assert Assoc.Lookup(env[1..][1..], "task_description") == Some(task.taskDescription);
    assert Assoc.Lookup(env[1..], "task_description") == Some(task.taskDescription);
    assert Assoc.Lookup(env, "task_description") == Some(task.taskDescription);
    assert Assoc.Lookup(env[1..][1..], "rubric") == Some(task.rubric);
    assert Assoc.Lookup(env, "rubric") == Some(task.rubric);
    assert Assoc.Lookup(env[1..], "student_response") == Some(essay);
    assert Assoc.Lookup(env, "student_response") == Some(essay);
  }

  /** The default template's layout, with the literal parts left open. */
  function Layout(a: string, b: string, c: string, d: string, e: string, f: string): seq<Piece>
  {
    [Text(a), Slot("task_name"), Text(b), Slot("score_formatting"),
     Text(c), Slot("max_score"), Text(d), Slot("task_description"),
     Text(e), Slot("rubric"), Text(f), Slot("student_response")]
  }

  lemma LayoutInstantiate(a: string, b: string, c: string, d: string, e: string, f: string, env: seq<(string, string)>, task: Task, essay: string)
    requires env == Replacements(task, essay)
    ensures Instantiate(Layout(a, b, c, d, e, f), env) == Strings.Concat(
      [a, task.taskName, b, SCORE_FORMATTING, c, Strings.IntToString(task.maxScore),
       d, task.taskDescription, e, task.rubric, f, essay])
  {
    var ps := Layout(a, b, c, d, e, f);
    var xs := [a, task.taskName, b, SCORE_FORMATTING, c, Strings.IntToString(task.maxScore),
      d, task.taskDescription, e, task.rubric, f, essay];
    ReplacementsLookup(task, essay);
    forall i | 0 <= i < |ps| ensures Value(ps[i], env) == xs[i] {
    }
    InstantiateConcat(ps, env, xs);
  }

  /** A template in which none of the six placeholders occurs is the prompt as it stands. */
  lemma BuildPromptNoPlaceholder(task: Task, essay: string)
    requires forall n :: Replaced(n) ==> !Strings.Occurs(task.promptTemplate, Token(n))
    ensures BuildPrompt(task, essay) == task.promptTemplate
  {
    var pairs := Replacements(task, essay);
    assert forall i :: 0 <= i < |pairs| ==> Replaced(pairs[i].0);
    ReplaceEachAbsent(task.promptTemplate, pairs);
  }

  /** The default template with brace-free values: every section carries its value. */
  lemma DefaultPrompt(task: Task, essay: string)
    requires task.promptTemplate == PROMPT_TEMPLATE && BraceFree(task, essay)
    ensures BuildPrompt(task, essay) == Strings.Concat(
      [HEADING, task.taskName, INSTRUCTIONS, SCORE_FORMATTING,
       LIMIT, Strings.IntToString(task.maxScore), POINTS, task.taskDescription,
       RUBRIC_HEADING, task.rubric, RESPONSE_HEADING, essay])
  {
    var ps := PROMPT_PIECES;
    assert ps == Layout(HEADING, INSTRUCTIONS, LIMIT, POINTS, RUBRIC_HEADING, RESPONSE_HEADING);
    PromptPiecesWellFormed();
    BuildPromptSinglePass(task, essay, ps);
    LayoutInstantiate(HEADING, INSTRUCTIONS, LIMIT, POINTS, RUBRIC_HEADING, RESPONSE_HEADING, Replacements(task, essay), task, essay);
  }

  /** The six placeholder names `buildPrompt` replaces. */
  predicate Replaced(name: string)
  {
    name in {"task_name", "student_response", "rubric", "task_description", "max_score", "score_formatting"}
  }

  /** With brace-free text and values, instantiation brings in no '{'. */
  lemma {:induction false} InstantiateBraceFree(ps: seq<Piece>, env: seq<(string, string)>)
    requires forall i :: 0 <= i < |ps| ==> (if ps[i].Text? then '{' !in ps[i].text else Assoc.Lookup(env, ps[i].name).Some?)
    requires forall i :: 0 <= i < |env| ==> '{' !in env[i].1
    ensures '{' !in Instantiate(ps, env)
  {
    if ps != [] {
      if ps[0].Slot? {
        var j := Assoc.LookupIndex(env, ps[0].name);
      }
      InstantiateBraceFree(ps[1..], env);
    }
  }

  /**
   * A template whose placeholders are all among the six, filled with
   * brace-free values, leaves no placeholder behind: the prompt holds no
   * '{' at all.
   */
  lemma NoPlaceholderLeft(task: Task, essay: string, ps: seq<Piece>)
    requires WellFormed(ps) && task.promptTemplate == Render(ps)
    requires forall i :: 0 <= i < |ps| && ps[i].Slot? ==> Replaced(ps[i].name)
    requires BraceFree(task, essay)
    ensures '{' !in BuildPrompt(task, essay)
  {
    var env := Replacements(task, essay);
    BuildPromptSinglePass(task, essay, ps);
    ReplacementsLookup(task, essay);
    ReplacementsGood(task, essay, 0);
    assert Replacements(task, essay)[0..] == Replacements(task, essay);
    InstantiateBraceFree(ps, env);
  }

  /** A template made of one placeholder, and a literal holding that placeholder's token, have the same text. */
  lemma RenderSlot(name: string)
    ensures Render([Slot(name)]) == Token(name) == Render([Text(Token(name))])
  {
    assert [Slot(name)][1..] == [] && [Text(Token(name))][1..] == [];
    assert Value(Slot(name), []) == Token(name);
    assert Render([Text(Token(name))]) == Value(Text(Token(name)), []) + Instantiate([], []);
  }

  /** Instantiating a template made of one placeholder. */
  lemma InstantiateSlot(name: string, env: seq<(string, string)>)
    ensures Instantiate([Slot(name)], env) == Value(Slot(name), env)
  {
    assert [Slot(name)][1..] == [];
  }

  /** Filling a name the template does not use changes nothing. */
  lemma FillUnused(ps: seq<Piece>, name: string, value: string)
    requires forall i :: 0 <= i < |ps| ==> ps[i] != Slot(name)
    ensures Fill(ps, name, value) == ps
  {
  }

  /** The first two passes over a template that holds only `{{student_response}}`. */
  lemma FirstPasses(task: Task, essay: string)
    requires task.promptTemplate == Token("student_response")
    ensures ReplaceEach(task.promptTemplate, Replacements(task, essay))
      == ReplaceEach(Render(Fill([Slot("student_response")], "student_response", essay)), Replacements(task, essay)[2..])
  {
    var ps := [Slot("student_response")];
    var pairs := Replacements(task, essay);
    PlaceholderNamesGood();
    RenderSlot("student_response");
    ReplaceAllFill(ps, "task_name", task.taskName);
    FillUnused(ps, "task_name", task.taskName);
    ReplaceAllFill(ps, "student_response", essay);
    assert pairs[1..][1..] == pairs[2..];
  }

  /**
   * The passes run in order over the whole text: a placeholder token in
   * the essay is expanded by a later pass (here `{{rubric}}`), where a
   * single pass over the template would have kept it.
   */
  lemma EssayTokenExpanded(task: Task)
    requires task.promptTemplate == Token("student_response")
    requires '{' !in task.rubric && '{' !in task.taskDescription
    ensures BuildPrompt(task, Token("rubric")) == task.rubric
    ensures Instantiate([Slot("student_response")], Replacements(task, Token("rubric"))) == Token("rubric")
  {
    var essay := Token("rubric");
    var pairs := Replacements(task, essay);
    FirstPasses(task, essay);
    assert Fill([Slot("student_response")], "student_response", essay) == [Text(essay)];
    RenderSlot("rubric");
    PlaceholderNamesGood();
    ReplacementsGood(task, essay, 2);
    ReplaceEachInstantiate([Slot("rubric")], pairs[2..]);
    InstantiateSlot("rubric", pairs[2..]);
    InstantiateSlot("student_response", pairs);
    ReplacementsLookup(task, essay);
  }

  /** The first three passes over a template that holds only `{{rubric}}`, whose rubric is `{{task_name}}`. */
  lemma RubricPasses(task: Task, essay: string)
    requires task.promptTemplate == Token("rubric") && task.rubric == Token("task_name")
    ensures BuildPrompt(task, essay) == ReplaceEach(Token("task_name"), Replacements(task, essay)[3..])
  {
    var pairs := Replacements(task, essay);
    var ps := [Slot("rubric")];
    PlaceholderNamesGood();
    RenderSlot("rubric");
    ReplaceAllFill(ps, "task_name", task.taskName);
    FillUnused(ps, "task_name", task.taskName);
    ReplaceAllFill(ps, "student_response", essay);
    FillUnused(ps, "student_response", essay);
    ReplaceAllFill(ps, "rubric", task.rubric);
    assert Fill(ps, "rubric", task.rubric) == [Text(Token("task_name"))];
    RenderSlot("task_name");
    assert ReplaceEach(Token("rubric"), pairs) == ReplaceEach(Token("rubric"), pairs[1..]);
    assert ReplaceEach(Token("rubric"), pairs[1..]) == ReplaceEach(Token("rubric"), pairs[1..][1..]);
    assert pairs[1..][1..][1..] == pairs[3..];
  }

  /** A token in a value inserted by a later pass is not expanded by an earlier one (here `{{task_name}}` in the rubric). */
  lemma RubricTokenKept(task: Task, essay: string)
    requires task.promptTemplate == Token("rubric") && task.rubric == Token("task_name")
    requires '{' !in task.taskDescription
    ensures BuildPrompt(task, essay) == Token("task_name")
  {
    var pairs := Replacements(task, essay);
    RubricPasses(task, essay);
    TaskNameGood();
    ReplacementsGood(task, essay, 3);
    ReplaceEachInstantiate([Slot("task_name")], pairs[3..]);
    RenderSlot("task_name");
    assert "task_name"[0] != "max_score"[0];
    Assoc.LookupAbsent(pairs[3..], "task_name");
    InstantiateSlot("task_name", pairs[3..]);
  }

  /** `(string)50`. */
  lemma FiftyString()
    ensures Strings.IntToString(50) == "50"
  {
    assert Strings.NatToString(5) == "5";
  }

  /** The text of the worked example's result, piece by piece. */
  lemma ExampleConcat()
    ensures Strings.Concat(["T", ":", "D", ":", "R", ":", "S", ":", "50"]) == "T:D:R:S:50"
  {
    var xs := ["T", ":", "D", ":", "R", ":", "S", ":", "50"];
    assert Strings.Concat(xs[8..]) == "50";
    assert Strings.Concat(xs[6..]) == "S:50";
    assert Strings.Concat(xs[4..]) == "R:S:50";
    assert Strings.Concat(xs[2..]) == "D:R:S:50";
  }

  /** The template of the worked example, `{{task_name}}:{{task_description}}:{{rubric}}:{{student_response}}:{{max_score}}`, piece by piece. */
  const EXAMPLE_PIECES := [Slot("task_name"), Text(":"), Slot("task_description"), Text(":"),
    Slot("rubric"), Text(":"), Slot("student_response"), Text(":"), Slot("max_score")]

  /** The pieces of the worked example's template stand for the given texts. */
  lemma ExampleValues(task: Task)
    requires task.taskName == "T" && task.rubric == "R" && task.taskDescription == "D" && task.maxScore == 50
    ensures WellFormed(EXAMPLE_PIECES)
    ensures var env := Replacements(task, "S");
      forall i :: 0 <= i < |EXAMPLE_PIECES| ==> Value(EXAMPLE_PIECES[i], env) == ["T", ":", "D", ":", "R", ":", "S", ":", "50"][i]
  {
    PlaceholderNamesGood();
    ReplacementsLookup(task, "S");
    FiftyString();
  }

  /** The worked example: task "T", description "D", rubric "R", maximum 50, essay "S". */
  lemma ExamplePrompt()
    ensures BuildPrompt(Task("T", "R", "D", 50, Render(EXAMPLE_PIECES)), "S") == "T:D:R:S:50"
  {
    var task := Task("T", "R", "D", 50, Render(EXAMPLE_PIECES));
    ExampleValues(task);
    BuildPromptSinglePass(task, "S", EXAMPLE_PIECES);
    InstantiateConcat(EXAMPLE_PIECES, Replacements(task, "S"), ["T", ":", "D", ":", "R", ":", "S", ":", "50"]);
    ExampleConcat();
  }
}
