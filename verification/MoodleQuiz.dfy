/** Exporting a quiz as Moodle XML elements and parsing it back. */
module MoodleQuiz {
  import opened Prelude
  import opened Text

  const MAX_QUESTIONS: nat := 100
  const MAX_ANSWERS: nat := 10
  const PREFIX: string := "$course$/top/"

  /** Identifiers are left out: the parser draws new ones. An empty explanation is no explanation. */
  datatype Answer = Answer(text: string, correct: bool)

  datatype Question = Question(text: string, answers: seq<Answer>, explanation: string)

  datatype Chapter = Chapter(title: string, questions: seq<Question>)

  /** Elements with the markup of their text; an absent element has none. */
  datatype AnswerElement = AnswerElement(fraction: real, text: string)

  datatype Element =
    | Category(text: string)
    | Item(kind: string, name: string, text: string, answers: seq<AnswerElement>, feedback: string)

  /** Text operations taken as given: HTML stripping (which trims), trimming, and the title guessed
      from a question name when no category has been seen. */
  datatype Ops = Ops(strip: string -> string, trim: string -> string, fromName: string -> string)

  // ── Escaping ────────────────────────────────────────────────────────────────

  /** `str.replace` of one character. */
  function Replace(s: string, c: char, repl: string): string
  {
    if s == "" then "" else (if s[0] == c then repl else [s[0]]) + Replace(s[1..], c, repl)
  }

  /** The source's four replacements, ampersands first. */
  function Escape(s: string): string
  {
    Replace(Replace(Replace(Replace(s, '&', "&amp;"), '<', "&lt;"), '>', "&gt;"), '"', "&quot;")
  }

  function Entity(c: char): string
  {
    if c == '&' then "&amp;" else if c == '<' then "&lt;" else if c == '>' then "&gt;"
    else if c == '"' then "&quot;" else [c]
  }

  predicate Starts(s: string, p: string) { |p| <= |s| && s[..|p|] == p }

  /** What an XML reader makes of character data. */
  function Unescape(s: string): string
  {
    if s == "" then ""
    else if Starts(s, "&amp;") then "&" + Unescape(s[5..])
    else if Starts(s, "&lt;") then "<" + Unescape(s[4..])
    else if Starts(s, "&gt;") then ">" + Unescape(s[4..])
    else if Starts(s, "&quot;") then "\"" + Unescape(s[6..])
    else [s[0]] + Unescape(s[1..])
  }

  lemma {:induction false} ReplaceConcat(a: string, b: string, c: char, repl: string)
    ensures Replace(a + b, c, repl) == Replace(a, c, repl) + Replace(b, c, repl)
  {
    if a == "" {
      assert a + b == b;
    } else {
      assert (a + b)[1..] == a[1..] + b;
      ReplaceConcat(a[1..], b, c, repl);
    }
  }

  lemma {:induction false} ReplaceNothing(s: string, c: char, repl: string)
    requires c !in s
    ensures Replace(s, c, repl) == s
  {
    if s != "" { ReplaceNothing(s[1..], c, repl); }
  }

  /** One replacement acts on a head that stands for `c` and on the rest separately. */
  lemma ReplaceHead(h: string, c: char, rest: string, target: char, repl: string)
    requires h == [c] || (target !in h && c != target)
    ensures Replace(h + rest, target, repl) == (if c == target then repl else h) + Replace(rest, target, repl)
  {
    ReplaceConcat(h, rest, target, repl);
    if h == [c] { assert Replace(h[1..], target, repl) == ""; } else { ReplaceNothing(h, target, repl); }
  }

  /** The order of the replacements is right: no character is escaped twice. */
  lemma EscapeHead(s: string)
    requires s != ""
    ensures Escape(s) == Entity(s[0]) + Escape(s[1..])
  {
    var c := s[0];
    var r0 := s[1..];
    var r1 := Replace(r0, '&', "&amp;");
    var r2 := Replace(r1, '<', "&lt;");
    var r3 := Replace(r2, '>', "&gt;");
    assert s == [c] + r0;
    ReplaceHead([c], c, r0, '&', "&amp;");
    var h1 := if c == '&' then "&amp;" else [c];
    ReplaceHead(h1, c, r1, '<', "&lt;");
    var h2 := if c == '<' then "&lt;" else h1;
    ReplaceHead(h2, c, r2, '>', "&gt;");
    var h3 := if c == '>' then "&gt;" else h2;
    ReplaceHead(h3, c, r3, '"', "&quot;");
  }

  /** Reading back what was escaped gives the text. */
  lemma {:induction false} EscapeRoundTrip(s: string)
    ensures Unescape(Escape(s)) == s
  {
    if s != "" {
      EscapeHead(s);
      EscapeRoundTrip(s[1..]);
      UnescapeHead(s[0], Escape(s[1..]));
    }
  }

  /** No markup character is left bare. */
  lemma {:induction false} EscapeIsSafe(s: string, c: char)
    requires c == '<' || c == '>' || c == '"'
    ensures c !in Escape(s)
  {
    if s != "" {
      EscapeHead(s);
      EscapeIsSafe(s[1..], c);
      assert c !in Entity(s[0]);
    }
  }

  lemma UnescapeHead(c: char, rest: string)
    ensures Unescape(Entity(c) + rest) == [c] + Unescape(rest)
  {
    var s := Entity(c) + rest;
    assert s[|Entity(c)|..] == rest;
    if |Entity(c)| == 1 {
      UnescapeBare(c, rest);
    } else {
      assert Starts(s, Entity(c));
      assert s[1] == Entity(c)[1];
      assert Starts(s, "&amp;") <==> c == '&';
      assert Starts(s, "&lt;") <==> c == '<';
      assert Starts(s, "&gt;") <==> c == '>';
    }
  }

  lemma UnescapeBare(c: char, rest: string)
    requires c != '&'
    ensures Unescape([c] + rest) == [c] + Unescape(rest)
  {
    var s := [c] + rest;
    assert s[0] == c && s[1..] == rest;
    assert !Starts(s, "&amp;") && !Starts(s, "&lt;") && !Starts(s, "&gt;") && !Starts(s, "&quot;");
  }

  /** The prefix needs no escaping. */
  lemma {:induction false} UnescapeAfterPlain(plain: string, rest: string)
    requires '&' !in plain
    ensures Unescape(plain + rest) == plain + Unescape(rest)
  {
    if plain == "" {
      assert plain + rest == rest;
    } else {
      var c, tail := plain[0], plain[1..];
      assert plain == [c] + tail;
      UnescapeAfterPlain(tail, rest);
      UnescapeBare(c, tail + rest);
      Shift(c, tail, rest);
      Shift(c, tail, Unescape(rest));
    }
  }

  lemma Shift(c: char, tail: string, rest: string)
    ensures ([c] + tail) + rest == [c] + (tail + rest)
  {}

  // ── Export ──────────────────────────────────────────────────────────────────

  function Correct(answers: seq<Answer>): nat
  {
    if answers == [] then 0
    else Correct(answers[..|answers| - 1]) + if answers[|answers| - 1].correct then 1 else 0
  }

  /** `round(100 / n, 4)`. */
  function Share(n: nat): real
    requires n >= 1
  {
    (1000000.0 / n as real + 0.5).Floor as real / 10000.0
  }

  function Fraction(answers: seq<Answer>): real
  {
    Share(if Correct(answers) == 0 then 1 else Correct(answers))
  }

  function AnswerElements(answers: seq<Answer>, fraction: real): seq<AnswerElement>
  {
    seq(|answers|, i requires 0 <= i < |answers| =>
      AnswerElement(if answers[i].correct then fraction else 0.0, Escape(answers[i].text)))
  }

  function Shortened(s: string): string { if |s| <= 255 then s else s[..255] }

  function QuestionElement(q: Question): Element
  {
    Item("multichoice", Escape(Shortened(q.text)), Escape(q.text), AnswerElements(q.answers, Fraction(q.answers)),
         Escape(q.explanation))
  }

  function QuestionElements(qs: seq<Question>): seq<Element>
  {
    if qs == [] then [] else QuestionElements(qs[..|qs| - 1]) + [QuestionElement(qs[|qs| - 1])]
  }

  function ChapterElements(c: Chapter): seq<Element>
  {
    [Category(PREFIX + Escape(c.title))] + QuestionElements(c.questions)
  }

  function Export(quiz: seq<Chapter>): seq<Element>
  {
    if quiz == [] then [] else Export(quiz[..|quiz| - 1]) + ChapterElements(quiz[|quiz| - 1])
  }

  lemma OneMoreQuestion(start: seq<Element>, qs: seq<Question>, j: nat)
    requires j < |qs|
    ensures start + QuestionElements(qs[..j + 1]) == start + QuestionElements(qs[..j]) + [QuestionElement(qs[j])]
  {
    assert qs[..j + 1][..j] == qs[..j];
    assert QuestionElements(qs[..j + 1]) == QuestionElements(qs[..j]) + [QuestionElement(qs[j])];
  }

  method AppendChapter(elements: seq<Element>, c: Chapter) returns (longer: seq<Element>)
    ensures longer == elements + ChapterElements(c)
  {
    var qs := c.questions;
    longer := elements + [Category(PREFIX + Escape(c.title))];
    ghost var start := longer;
    for j := 0 to |qs|
      invariant longer == start + QuestionElements(qs[..j])
    {
      OneMoreQuestion(start, qs, j);
      longer := longer + [QuestionElement(qs[j])];
    }
    assert qs[..|qs|] == qs;
  }

  method GenerateMoodleXml(quiz: seq<Chapter>) returns (elements: seq<Element>)
    ensures elements == Export(quiz)
  {
    elements := [];
    for i := 0 to |quiz|
      invariant elements == Export(quiz[..i])
    {
      assert quiz[..i + 1][..i] == quiz[..i];
      elements := AppendChapter(elements, quiz[i]);
    }
    assert quiz[..|quiz|] == quiz;
  }

  // ── Parse ───────────────────────────────────────────────────────────────────

  /** The text of an element: unescaped by the reader, then stripped; nothing stays nothing. */
  function TextOf(ops: Ops, markup: string): string
  {
    if markup == "" then "" else ops.strip(Unescape(markup))
  }

  /** Non-empty answers, in order. */
  function Kept(ops: Ops, els: seq<AnswerElement>): seq<Answer>
  {
    if els == [] then []
    else
      var front, last := Kept(ops, els[..|els| - 1]), els[|els| - 1];
      var t := TextOf(ops, last.text);
      if t == "" then front else front + [Answer(t, last.fraction > 0.0)]
  }

  function AtMost<T>(s: seq<T>, n: nat): seq<T> { if |s| <= n then s else s[..n] }

  function ReadQuestion(ops: Ops, e: Element): Option<Question>
    requires e.Item?
  {
    var answers := AtMost(Kept(ops, e.answers), MAX_ANSWERS);
    var text := TextOf(ops, e.text);
    if answers == [] then None
    else Some(Question(if text == "" then TextOf(ops, e.name) else text, answers, TextOf(ops, e.feedback)))
  }

  function LastSegment(s: string): string { s[LastIndex(s, '/') + 1..] }

  /** The chapter a category element opens; an empty one leaves the current chapter in force. */
  function CategoryAfter(ops: Ops, current: Option<string>, markup: string): Option<string>
  {
    var title := ops.trim(LastSegment(TextOf(ops, markup)));
    if title == "" then current else Some(title)
  }

  /** The insertion-ordered dictionary of chapters. */
  function Add(cs: seq<Chapter>, title: string, q: Question): seq<Chapter>
  {
    if cs == [] then [Chapter(title, [q])]
    else if cs[0].title == title then [cs[0].(questions := cs[0].questions + [q])] + cs[1..]
    else [cs[0]] + Add(cs[1..], title, q)
  }

  datatype State = State(chapters: seq<Chapter>, total: nat, category: Option<string>, stopped: bool)

  function Read(ops: Ops, st: State, e: Element): State
  {
    if st.stopped then st
    else
      match e
      case Category(text) => st.(category := CategoryAfter(ops, st.category, text))
      case Item(kind, name, _, _, _) =>
        if kind !in {"multichoice", "multiple", "truefalse"} then st
        else if st.total >= MAX_QUESTIONS then st.(stopped := true)
        else
          var title := if st.category.Some? then st.category.value else ops.fromName(TextOf(ops, name));
          var q := ReadQuestion(ops, e);
          st.(total := st.total + 1, chapters := if q.None? then st.chapters else Add(st.chapters, title, q.value))
  }

  function ReadAll(ops: Ops, st: State, els: seq<Element>): State
  {
    if els == [] then st else Read(ops, ReadAll(ops, st, els[..|els| - 1]), els[|els| - 1])
  }

  const NOTHING: State := State([], 0, None, false)

  function OrDefault(cs: seq<Chapter>): seq<Chapter> { if cs == [] then [Chapter("Questions", [])] else cs }

  function Parse(ops: Ops, els: seq<Element>): seq<Chapter>
  {
    OrDefault(ReadAll(ops, NOTHING, els).chapters)
  }

  lemma {:induction false} StoppedStays(ops: Ops, st: State, els: seq<Element>)
    requires st.stopped
    ensures ReadAll(ops, st, els) == st
  {
    if els != [] { StoppedStays(ops, st, els[..|els| - 1]); }
  }

  lemma RestIgnored(ops: Ops, els: seq<Element>, n: nat)
    requires n <= |els| && ReadAll(ops, NOTHING, els[..n]).stopped
    ensures ReadAll(ops, NOTHING, els) == ReadAll(ops, NOTHING, els[..n])
  {
    assert els == els[..n] + els[n..];
    ReadConcat(ops, NOTHING, els[..n], els[n..]);
    StoppedStays(ops, ReadAll(ops, NOTHING, els[..n]), els[n..]);
  }

  method ParseMoodleXml(ops: Ops, els: seq<Element>) returns (chapters: seq<Chapter>)
    ensures chapters == Parse(ops, els)
  {
    chapters := [];
    var total, category := 0, None;
    for i := 0 to |els|
      invariant ReadAll(ops, NOTHING, els[..i]) == State(chapters, total, category, false)
    {
      assert els[..i + 1][..i] == els[..i];
      var e := els[i];
      assert ReadAll(ops, NOTHING, els[..i + 1]) == Read(ops, State(chapters, total, category, false), e);
      match e
      case Category(text) => category := CategoryAfter(ops, category, text);
      case Item(kind, name, _, answerEls, _) =>
        if kind !in {"multichoice", "multiple", "truefalse"} { continue; }
        if total >= MAX_QUESTIONS {
          RestIgnored(ops, els, i + 1);
          break;
        }
        total := total + 1;
        var title := if category.Some? then category.value else ops.fromName(TextOf(ops, name));
        var answers := ReadAnswers(ops, answerEls);
        if answers == [] { continue; }
        var text := TextOf(ops, e.text);
        if text == "" { text := TextOf(ops, name); }
        chapters := Add(chapters, title, Question(text, answers, TextOf(ops, e.feedback)));
    }
    assert els[..|els|] == els;
    chapters := OrDefault(chapters);
  }

  method ReadAnswers(ops: Ops, els: seq<AnswerElement>) returns (answers: seq<Answer>)
    ensures answers == AtMost(Kept(ops, els), MAX_ANSWERS)
  {
    answers := [];
    for i := 0 to |els|
      invariant answers == Kept(ops, els[..i]) && |answers| < MAX_ANSWERS
    {
      assert els[..i + 1][..i] == els[..i];
      var text := TextOf(ops, els[i].text);
      if text == "" { continue; }
      answers := answers + [Answer(text, els[i].fraction > 0.0)];
      if |answers| >= MAX_ANSWERS {
        KeptGrows(ops, els, i + 1);
        return;
      }
    }
    assert els[..|els|] == els;
  }

  lemma {:induction false} KeptGrows(ops: Ops, els: seq<AnswerElement>, n: nat)
    requires n <= |els|
    ensures Kept(ops, els[..n]) <= Kept(ops, els)
    decreases |els| - n
  {
    if n == |els| {
      assert els[..n] == els;
    } else {
      assert els[..n + 1][..n] == els[..n];
      KeptGrows(ops, els, n + 1);
    }
  }

  lemma {:induction false} ReadConcat(ops: Ops, st: State, a: seq<Element>, b: seq<Element>)
    ensures ReadAll(ops, st, a + b) == ReadAll(ops, ReadAll(ops, st, a), b)
  {
    if b == [] {
      assert a + b == a;
    } else {
      assert (a + b)[..|a + b| - 1] == a + b[..|b| - 1];
      ReadConcat(ops, st, a, b[..|b| - 1]);
    }
  }

  // ── Round trip ──────────────────────────────────────────────────────────────

  /** What a question becomes, in terms of its own texts: stripped, without answers that strip to
      nothing, and gone when no answer is left. */
  function KeptAnswers(ops: Ops, answers: seq<Answer>): seq<Answer>
  {
    if answers == [] then []
    else
      var front, last := KeptAnswers(ops, answers[..|answers| - 1]), answers[|answers| - 1];
      var t := Clean(ops, last.text);
      if t == "" then front else front + [Answer(t, last.correct)]
  }

  function Clean(ops: Ops, s: string): string { if s == "" then "" else ops.strip(s) }

  function Survivor(ops: Ops, q: Question): Option<Question>
  {
    var answers := KeptAnswers(ops, q.answers);
    if answers == [] then None
    else
      var text := Clean(ops, q.text);
      Some(Question(if text == "" then Clean(ops, Shortened(q.text)) else text, answers, Clean(ops, q.explanation)))
  }

  predicate Fits(quiz: seq<Chapter>)
  {
    && (forall c, q :: c in quiz && q in c.questions ==> 1 <= |q.answers| <= MAX_ANSWERS)
    && Questions(quiz) <= MAX_QUESTIONS
  }

  function Questions(quiz: seq<Chapter>): nat
  {
    if quiz == [] then 0 else Questions(quiz[..|quiz| - 1]) + |quiz[|quiz| - 1].questions|
  }

  lemma TextSurvives(ops: Ops, s: string)
    ensures TextOf(ops, Escape(s)) == Clean(ops, s)
  {
    EscapeRoundTrip(s);
    if s != "" {
      EscapeHead(s);
      assert Escape(s) != "";
    }
  }

  lemma {:induction false} CorrectAtMost(answers: seq<Answer>)
    ensures Correct(answers) <= |answers|
  {
    if answers != [] { CorrectAtMost(answers[..|answers| - 1]); }
  }

  lemma FractionPositive(answers: seq<Answer>)
    requires |answers| <= MAX_ANSWERS
    ensures Fraction(answers) > 0.0
  {
    CorrectAtMost(answers);
    var n := if Correct(answers) == 0 then 1 else Correct(answers);
    SharePositive(n);
  }

  lemma SharePositive(n: nat)
    requires 1 <= n <= MAX_ANSWERS
    ensures Share(n) > 0.0
  {
    assert 1000000.0 / n as real >= 1.0;
  }

  lemma KeptUnfolds(ops: Ops, els: seq<AnswerElement>, n: nat)
    requires n < |els|
    ensures var t := TextOf(ops, els[n].text);
            Kept(ops, els[..n + 1]) ==
              Kept(ops, els[..n]) + if t == "" then [] else [Answer(t, els[n].fraction > 0.0)]
  {
    assert els[..n + 1][..n] == els[..n];
  }

  lemma KeptAnswersUnfolds(ops: Ops, answers: seq<Answer>, n: nat)
    requires n < |answers|
    ensures var t := Clean(ops, answers[n].text);
            KeptAnswers(ops, answers[..n + 1]) ==
              KeptAnswers(ops, answers[..n]) + if t == "" then [] else [Answer(t, answers[n].correct)]
  {
    assert answers[..n + 1][..n] == answers[..n];
  }

  lemma {:induction false} AnswersSurvive(ops: Ops, answers: seq<Answer>, fraction: real, n: nat)
    requires fraction > 0.0 && n <= |answers|
    ensures Kept(ops, AnswerElements(answers, fraction)[..n]) == KeptAnswers(ops, answers[..n])
    ensures |KeptAnswers(ops, answers[..n])| <= n
  {
    if n > 0 {
      var els := AnswerElements(answers, fraction);
      AnswersSurvive(ops, answers, fraction, n - 1);
      KeptUnfolds(ops, els, n - 1);
      KeptAnswersUnfolds(ops, answers, n - 1);
      TextSurvives(ops, answers[n - 1].text);
    }
  }

  /** Reading an exported question gives its survivor. */
  lemma QuestionSurvives(ops: Ops, q: Question)
    requires |q.answers| <= MAX_ANSWERS
    ensures ReadQuestion(ops, QuestionElement(q)) == Survivor(ops, q)
  {
    var fraction := Fraction(q.answers);
    FractionPositive(q.answers);
    AnswersSurvive(ops, q.answers, fraction, |q.answers|);
    var els := AnswerElements(q.answers, fraction);
    assert els[..|q.answers|] == els && q.answers[..|q.answers|] == q.answers;
    TextSurvives(ops, q.text);
    TextSurvives(ops, Shortened(q.text));
    TextSurvives(ops, q.explanation);
  }

  /** The chapter title that reading back the category of `title` leaves in force. */
  function TitleAfter(ops: Ops, current: Option<string>, title: string): Option<string>
  {
    var t := ops.trim(LastSegment(ops.strip(PREFIX + title)));
    if t == "" then current else Some(t)
  }

  lemma CategorySurvives(ops: Ops, current: Option<string>, title: string)
    ensures CategoryAfter(ops, current, PREFIX + Escape(title)) == TitleAfter(ops, current, title)
  {
    EscapeRoundTrip(title);
    UnescapeAfterPlain(PREFIX, Escape(title));
  }

  function TitleOf(ops: Ops, category: Option<string>, q: Question): string
  {
    if category.Some? then category.value else ops.fromName(Clean(ops, Shortened(q.text)))
  }

  function CategoryOf(ops: Ops, quiz: seq<Chapter>): Option<string>
  {
    if quiz == [] then None
    else TitleAfter(ops, CategoryOf(ops, quiz[..|quiz| - 1]), quiz[|quiz| - 1].title)
  }

  /** A surviving question and the title in force where it was read. */
  datatype Filed = Filed(title: string, question: Question)

  function Survivors(ops: Ops, category: Option<string>, qs: seq<Question>): seq<Filed>
  {
    if qs == [] then []
    else
      var front, q := Survivors(ops, category, qs[..|qs| - 1]), qs[|qs| - 1];
      if Survivor(ops, q).None? then front else front + [Filed(TitleOf(ops, category, q), Survivor(ops, q).value)]
  }

  /** The surviving questions of a quiz, in order. */
  function InForce(ops: Ops, quiz: seq<Chapter>): seq<Filed>
  {
    if quiz == [] then []
    else InForce(ops, quiz[..|quiz| - 1]) + Survivors(ops, CategoryOf(ops, quiz), quiz[|quiz| - 1].questions)
  }

  /** The titles, each where it is first used. */
  function Titles(filed: seq<Filed>): seq<string>
  {
    if filed == [] then []
    else
      var front, t := Titles(filed[..|filed| - 1]), filed[|filed| - 1].title;
      if t in front then front else front + [t]
  }

  /** The questions filed under a title, in order. */
  function Under(filed: seq<Filed>, title: string): seq<Question>
  {
    if filed == [] then []
    else
      var front, f := Under(filed[..|filed| - 1], title), filed[|filed| - 1];
      if f.title == title then front + [f.question] else front
  }

  function Grouped(filed: seq<Filed>): (cs: seq<Chapter>)
    ensures |cs| == |Titles(filed)|
  {
    var titles := Titles(filed);
    seq(|titles|, i requires 0 <= i < |titles| => Chapter(titles[i], Under(filed, titles[i])))
  }

  ghost predicate Tidy(cs: seq<Chapter>)
  {
    && (forall i, j :: 0 <= i < j < |cs| ==> cs[i].title != cs[j].title)
    && (forall c :: c in cs ==> c.questions != [])
  }

  lemma {:induction false} AddJoins(cs: seq<Chapter>, title: string, q: Question, i: nat)
    requires i < |cs| && cs[i].title == title && forall j :: 0 <= j < i ==> cs[j].title != title
    ensures Add(cs, title, q) == cs[i := Chapter(title, cs[i].questions + [q])]
  {
    if i > 0 {
      AddJoins(cs[1..], title, q, i - 1);
      var longer := Chapter(title, cs[i].questions + [q]);
      assert [cs[0]] + cs[1..][i - 1 := longer] == cs[i := longer];
    }
  }

  lemma {:induction false} AddOpens(cs: seq<Chapter>, title: string, q: Question)
    requires forall c :: c in cs ==> c.title != title
    ensures Add(cs, title, q) == cs + [Chapter(title, [q])]
  {
    if cs != [] {
      AddOpens(cs[1..], title, q);
      assert [cs[0]] + (cs[1..] + [Chapter(title, [q])]) == cs + [Chapter(title, [q])];
    }
  }

  /** A question joins the end of the chapter of its title and leaves every other chapter as it was, or
      opens a chapter at the end. */
  lemma AddKeepsTidy(cs: seq<Chapter>, title: string, q: Question)
    requires Tidy(cs)
    ensures Tidy(Add(cs, title, q))
    ensures forall i :: 0 <= i < |cs| && cs[i].title == title ==>
              Add(cs, title, q) == cs[i := Chapter(title, cs[i].questions + [q])]
    ensures (forall c :: c in cs ==> c.title != title) ==> Add(cs, title, q) == cs + [Chapter(title, [q])]
  {
    if i :| 0 <= i < |cs| && cs[i].title == title {
      AddJoins(cs, title, q, i);
    } else {
      forall c | c in cs ensures c.title != title {}
      AddOpens(cs, title, q);
    }
  }

  lemma FiledUnfolds(filed: seq<Filed>, f: Filed)
    ensures Titles(filed + [f]) == if f.title in Titles(filed) then Titles(filed) else Titles(filed) + [f.title]
    ensures forall t ::
              Under(filed + [f], t) == if f.title == t then Under(filed, t) + [f.question] else Under(filed, t)
  {
    assert (filed + [f])[..|filed|] == filed;
  }

  /** The titles are the ones in use, without repetition. */
  lemma {:induction false} TitlesInUse(filed: seq<Filed>)
    ensures forall t :: t in Titles(filed) <==> exists f :: f in filed && f.title == t
    ensures forall t :: t in Titles(filed) <==> Under(filed, t) != []
    ensures forall i, j :: 0 <= i < j < |Titles(filed)| ==> Titles(filed)[i] != Titles(filed)[j]
  {
    if filed != [] {
      var front, f := filed[..|filed| - 1], filed[|filed| - 1];
      assert filed == front + [f];
      TitlesInUse(front);
      FiledUnfolds(front, f);
    }
  }

  /** Where a title is first used. */
  function FirstUse(filed: seq<Filed>, t: string): (n: nat)
    ensures n <= |filed| && (n < |filed| ==> filed[n].title == t)
    ensures forall i :: 0 <= i < n ==> filed[i].title != t
  {
    if filed == [] || filed[0].title == t then 0 else 1 + FirstUse(filed[1..], t)
  }

  lemma FirstUseStays(filed: seq<Filed>, f: Filed, t: string)
    requires t in Titles(filed)
    ensures FirstUse(filed + [f], t) == FirstUse(filed, t) < |filed|
  {
    TitlesInUse(filed);
    var g :| g in filed && g.title == t;
    var i :| 0 <= i < |filed| && filed[i] == g;
    assert (filed + [f])[FirstUse(filed, t)].title == t;
  }

  lemma FirstUseOfNew(filed: seq<Filed>, f: Filed)
    requires f.title !in Titles(filed)
    ensures FirstUse(filed + [f], f.title) == |filed|
  {
    TitlesInUse(filed);
    assert (filed + [f])[|filed|].title == f.title;
    forall i | 0 <= i < |filed| ensures (filed + [f])[i].title != f.title { assert filed[i] in filed; }
  }

  /** Chapters come in the order in which their titles are first used. */
  lemma {:induction false} TitlesByFirstUse(filed: seq<Filed>, i: nat, j: nat)
    requires i < j < |Titles(filed)|
    ensures FirstUse(filed, Titles(filed)[i]) < FirstUse(filed, Titles(filed)[j]) < |filed|
  {
    var front, f := filed[..|filed| - 1], filed[|filed| - 1];
    assert filed == front + [f];
    FiledUnfolds(front, f);
    FirstUseStays(front, f, Titles(filed)[i]);
    if j < |Titles(front)| {
      FirstUseStays(front, f, Titles(filed)[j]);
      TitlesByFirstUse(front, i, j);
    } else {
      FirstUseOfNew(front, f);
    }
  }

  lemma GroupedIsTidy(filed: seq<Filed>)
    ensures Tidy(Grouped(filed))
  {
    TitlesInUse(filed);
  }

  lemma GroupJoins(filed: seq<Filed>, f: Filed, i: nat)
    requires i < |Titles(filed)| && Titles(filed)[i] == f.title
    ensures Grouped(filed + [f]) == Grouped(filed)[i := Chapter(f.title, Grouped(filed)[i].questions + [f.question])]
  {
    TitlesInUse(filed);
    FiledUnfolds(filed, f);
  }

  lemma GroupOpens(filed: seq<Filed>, f: Filed)
    requires f.title !in Titles(filed)
    ensures Grouped(filed + [f]) == Grouped(filed) + [Chapter(f.title, [f.question])]
  {
    TitlesInUse(filed);
    FiledUnfolds(filed, f);
    assert Under(filed, f.title) == [];
    var cs, longer, titles := Grouped(filed), Grouped(filed + [f]), Titles(filed);
    forall i | 0 <= i < |cs| ensures longer[i] == cs[i] {
      assert titles[i] in titles;
      assert Titles(filed + [f])[i] == titles[i];
    }
    assert longer[|cs|] == Chapter(f.title, [f.question]);
    assert longer == cs + [Chapter(f.title, [f.question])];
  }

  /** The dictionary of the parser computes the grouping. */
  lemma AddGroups(filed: seq<Filed>, f: Filed)
    ensures Add(Grouped(filed), f.title, f.question) == Grouped(filed + [f])
  {
    var titles, cs := Titles(filed), Grouped(filed);
    GroupedIsTidy(filed);
    AddKeepsTidy(cs, f.title, f.question);
    if i :| 0 <= i < |titles| && titles[i] == f.title {
      GroupJoins(filed, f, i);
      assert cs[i].title == f.title;
    } else {
      forall c | c in cs ensures c.title in titles {}
      GroupOpens(filed, f);
    }
  }

  lemma {:induction false} QuestionsRead(ops: Ops, st: State, filed: seq<Filed>, qs: seq<Question>)
    requires !st.stopped && st.total + |qs| <= MAX_QUESTIONS && st.chapters == Grouped(filed)
    requires forall q :: q in qs ==> |q.answers| <= MAX_ANSWERS
    ensures ReadAll(ops, st, QuestionElements(qs))
         == st.(total := st.total + |qs|, chapters := Grouped(filed + Survivors(ops, st.category, qs)))
  {
    if qs == [] {
      assert filed + [] == filed;
    } else {
      var front, q := qs[..|qs| - 1], qs[|qs| - 1];
      QuestionsRead(ops, st, filed, front);
      QuestionSurvives(ops, q);
      TextSurvives(ops, Shortened(q.text));
      var els := QuestionElements(qs);
      assert els[..|els| - 1] == QuestionElements(front);
      if Survivor(ops, q).Some? {
        var f := Filed(TitleOf(ops, st.category, q), Survivor(ops, q).value);
        AddGroups(filed + Survivors(ops, st.category, front), f);
        assert filed + Survivors(ops, st.category, qs) == filed + Survivors(ops, st.category, front) + [f];
      }
    }
  }

  lemma ChapterRead(ops: Ops, st: State, filed: seq<Filed>, c: Chapter)
    requires !st.stopped && st.total + |c.questions| <= MAX_QUESTIONS && st.chapters == Grouped(filed)
    requires forall q :: q in c.questions ==> |q.answers| <= MAX_ANSWERS
    ensures var category := TitleAfter(ops, st.category, c.title);
            ReadAll(ops, st, ChapterElements(c))
              == State(Grouped(filed + Survivors(ops, category, c.questions)), st.total + |c.questions|, category,
                       false)
  {
    var head := [Category(PREFIX + Escape(c.title))];
    CategorySurvives(ops, st.category, c.title);
    ReadConcat(ops, st, head, QuestionElements(c.questions));
    assert head[..0] == [] && ReadAll(ops, st, head[..0]) == st;
    assert ReadAll(ops, st, head) == Read(ops, st, head[0]);
    QuestionsRead(ops, Read(ops, st, head[0]), filed, c.questions);
  }

  lemma {:induction false} ExportRead(ops: Ops, quiz: seq<Chapter>)
    requires Fits(quiz)
    ensures ReadAll(ops, NOTHING, Export(quiz))
         == State(Grouped(InForce(ops, quiz)), Questions(quiz), CategoryOf(ops, quiz), false)
  {
    if quiz != [] {
      var front, last := quiz[..|quiz| - 1], quiz[|quiz| - 1];
      assert quiz == front + [last];
      assert forall c :: c in front ==> c in quiz;
      assert last in quiz;
      ExportRead(ops, front);
      ReadConcat(ops, NOTHING, Export(front), ChapterElements(last));
      ChapterRead(ops, ReadAll(ops, NOTHING, Export(front)), InForce(ops, front), last);
    }
  }

  /** Parsing the export of a quiz within the limits gives one chapter for each title in force, in order
      of first use, with the surviving questions read under that title in their order. */
  lemma ParseOfExport(ops: Ops, quiz: seq<Chapter>)
    requires Fits(quiz)
    ensures Parse(ops, Export(quiz)) == OrDefault(Grouped(InForce(ops, quiz)))
  {
    ExportRead(ops, quiz);
  }

  // ── No question is lost or duplicated ───────────────────────────────────────

  lemma {:induction false} QuestionsOfCons(c: Chapter, cs: seq<Chapter>)
    ensures Questions([c] + cs) == |c.questions| + Questions(cs)
  {
    var all := [c] + cs;
    if cs == [] {
      assert all[..0] == [] && Questions(all[..0]) == 0;
    } else {
      assert all[..|all| - 1] == [c] + cs[..|cs| - 1];
      QuestionsOfCons(c, cs[..|cs| - 1]);
    }
  }

  lemma {:induction false} AddCounts(cs: seq<Chapter>, title: string, q: Question)
    ensures Questions(Add(cs, title, q)) == Questions(cs) + 1
  {
    if cs == [] {
      QuestionsOfCons(Chapter(title, [q]), []);
      assert [Chapter(title, [q])] + [] == [Chapter(title, [q])];
    } else {
      assert cs == [cs[0]] + cs[1..];
      QuestionsOfCons(cs[0], cs[1..]);
      if cs[0].title == title {
        QuestionsOfCons(cs[0].(questions := cs[0].questions + [q]), cs[1..]);
      } else {
        AddCounts(cs[1..], title, q);
        QuestionsOfCons(cs[0], Add(cs[1..], title, q));
      }
    }
  }

  /** Grouping keeps every filed question exactly once. */
  lemma {:induction false} GroupedCounts(filed: seq<Filed>)
    ensures Questions(Grouped(filed)) == |filed|
  {
    if filed != [] {
      var front, f := filed[..|filed| - 1], filed[|filed| - 1];
      assert filed == front + [f];
      GroupedCounts(front);
      AddGroups(front, f);
      AddCounts(Grouped(front), f.title, f.question);
    }
  }
}
