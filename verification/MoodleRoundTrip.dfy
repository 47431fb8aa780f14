/** When a quiz comes back from Moodle XML exactly as it was. */
module MoodleRoundTrip {
  import opened MoodleQuiz
  import opened Prelude
  import opened Text

  /** What the category of a chapter's title is read as. */
  function ReadTitle(ops: Ops, title: string): string { ops.trim(LastSegment(ops.strip(PREFIX + title))) }

  /** The text a question comes back with. */
  function ReadText(ops: Ops, text: string): string
  {
    if Clean(ops, text) == "" then Clean(ops, Shortened(text)) else Clean(ops, text)
  }

  /** Texts come back as they are and no answer is dropped. */
  ghost predicate Unchanged(ops: Ops, q: Question)
  {
    && ReadText(ops, q.text) == q.text && Clean(ops, q.explanation) == q.explanation
    && q.answers != [] && forall a :: a in q.answers ==> a.text != "" && ops.strip(a.text) == a.text
  }

  /** The title is read as itself; or it and all before it are read as nothing, and every question of
      the chapter has a name that yields the title. */
  ghost predicate TitleHolds(ops: Ops, quiz: seq<Chapter>, i: nat)
    requires i < |quiz|
  {
    if ReadTitle(ops, quiz[i].title) != "" then ReadTitle(ops, quiz[i].title) == quiz[i].title
    else
      && (forall j :: 0 <= j < i ==> ReadTitle(ops, quiz[j].title) == "")
      && forall q :: q in quiz[i].questions ==> TitleOf(ops, None, q) == quiz[i].title
  }

  ghost predicate Faithful(ops: Ops, quiz: seq<Chapter>)
  {
    && quiz != [] && Tidy(quiz)
    && (forall i :: 0 <= i < |quiz| ==> TitleHolds(ops, quiz, i))
    && (forall c, q :: c in quiz && q in c.questions ==> Unchanged(ops, q))
  }

  /** A title is read from the start, or no chapter begins with what a question of the chapter before it
      is read as: otherwise two copies of one question could trade places. */
  ghost predicate NoTrade(ops: Ops, quiz: seq<Chapter>)
  {
    || (quiz != [] && ReadTitle(ops, quiz[0].title) != "")
    || forall n, q :: 0 < n < |quiz| && quiz[n].questions != [] && q in quiz[n - 1].questions ==>
         Survivor(ops, q) != Some(quiz[n].questions[0])
  }

  lemma {:induction false} AnswersUnchangedIff(ops: Ops, answers: seq<Answer>)
    ensures |KeptAnswers(ops, answers)| <= |answers|
    ensures KeptAnswers(ops, answers) == answers <==>
              forall a :: a in answers ==> a.text != "" && ops.strip(a.text) == a.text
  {
    if answers != [] {
      var front, last := answers[..|answers| - 1], answers[|answers| - 1];
      assert answers == front + [last];
      AnswersUnchangedIff(ops, front);
      if KeptAnswers(ops, answers) == answers {
        assert KeptAnswers(ops, answers)[..|front|] == front;
        assert KeptAnswers(ops, answers)[|front|] == last;
      }
    }
  }

  lemma UnchangedIff(ops: Ops, q: Question)
    ensures Survivor(ops, q) == Some(q) <==> Unchanged(ops, q)
  {
    AnswersUnchangedIff(ops, q.answers);
  }

  // ── Where each question is and where it is read ─────────────────────────────

  function OwnOf(title: string, qs: seq<Question>): seq<Filed>
  {
    seq(|qs|, k requires 0 <= k < |qs| => Filed(title, qs[k]))
  }

  /** Every question under the title of its own chapter. */
  function Own(quiz: seq<Chapter>): seq<Filed>
  {
    if quiz == [] then [] else Own(quiz[..|quiz| - 1]) + OwnOf(quiz[|quiz| - 1].title, quiz[|quiz| - 1].questions)
  }

  /** The quiz up to question `k` of chapter `n`. */
  function UpTo(quiz: seq<Chapter>, n: nat, k: nat): seq<Chapter>
    requires n < |quiz| && k <= |quiz[n].questions|
  {
    quiz[..n] + if k == 0 then [] else [Chapter(quiz[n].title, quiz[n].questions[..k])]
  }

  function OwnUpTo(quiz: seq<Chapter>, n: nat, k: nat): seq<Filed>
    requires n < |quiz| && k <= |quiz[n].questions|
  {
    Own(quiz[..n]) + OwnOf(quiz[n].title, quiz[n].questions[..k])
  }

  function ReadUpTo(ops: Ops, quiz: seq<Chapter>, n: nat, k: nat): seq<Filed>
    requires n < |quiz| && k <= |quiz[n].questions|
  {
    InForce(ops, quiz[..n]) + Survivors(ops, CategoryOf(ops, quiz[..n + 1]), quiz[n].questions[..k])
  }

  lemma OwnOfStep(title: string, qs: seq<Question>, k: nat)
    requires k < |qs|
    ensures OwnOf(title, qs[..k + 1]) == OwnOf(title, qs[..k]) + [Filed(title, qs[k])]
  {}

  lemma OwnStep(quiz: seq<Chapter>, n: nat, k: nat)
    requires n < |quiz| && k < |quiz[n].questions|
    ensures OwnUpTo(quiz, n, k + 1) == OwnUpTo(quiz, n, k) + [Filed(quiz[n].title, quiz[n].questions[k])]
  {}

  lemma OwnNext(quiz: seq<Chapter>, n: nat)
    requires n < |quiz|
    ensures Own(quiz[..n + 1]) == OwnUpTo(quiz, n, |quiz[n].questions|)
  {
    assert quiz[..n + 1][..n] == quiz[..n];
    assert quiz[n].questions[..|quiz[n].questions|] == quiz[n].questions;
  }

  lemma SurvivorsStep(ops: Ops, category: Option<string>, qs: seq<Question>, k: nat)
    requires k < |qs|
    ensures Survivors(ops, category, qs[..k + 1]) == Survivors(ops, category, qs[..k]) +
              if Survivor(ops, qs[k]).None? then []
              else [Filed(TitleOf(ops, category, qs[k]), Survivor(ops, qs[k]).value)]
  {
    assert qs[..k + 1][..k] == qs[..k];
  }

  lemma ReadStep(ops: Ops, quiz: seq<Chapter>, n: nat, k: nat)
    requires n < |quiz| && k < |quiz[n].questions|
    ensures var q := quiz[n].questions[k];
            ReadUpTo(ops, quiz, n, k + 1) == ReadUpTo(ops, quiz, n, k) +
              if Survivor(ops, q).None? then []
              else [Filed(TitleOf(ops, CategoryOf(ops, quiz[..n + 1]), q), Survivor(ops, q).value)]
  {
    SurvivorsStep(ops, CategoryOf(ops, quiz[..n + 1]), quiz[n].questions, k);
  }

  lemma ReadNext(ops: Ops, quiz: seq<Chapter>, n: nat)
    requires n < |quiz|
    ensures InForce(ops, quiz[..n + 1]) == ReadUpTo(ops, quiz, n, |quiz[n].questions|)
  {
    assert quiz[..n + 1][..n] == quiz[..n];
    assert quiz[n].questions[..|quiz[n].questions|] == quiz[n].questions;
  }

  lemma AddToUpTo(quiz: seq<Chapter>, n: nat, k: nat)
    requires Tidy(quiz) && n < |quiz| && k < |quiz[n].questions|
    ensures Add(UpTo(quiz, n, k), quiz[n].title, quiz[n].questions[k]) == UpTo(quiz, n, k + 1)
    ensures Tidy(UpTo(quiz, n, k))
  {
    var cs, qs, t := UpTo(quiz, n, k), quiz[n].questions, quiz[n].title;
    forall c | c in cs ensures c.questions != [] { if c in quiz[..n] { assert c in quiz; } }
    AddKeepsTidy(cs, t, qs[k]);
    if k > 0 {
      assert cs[n].title == t && qs[..k] + [qs[k]] == qs[..k + 1];
      assert cs[n := Chapter(t, qs[..k + 1])] == UpTo(quiz, n, k + 1);
    } else {
      assert [qs[0]] == qs[..1];
    }
  }

  lemma WholeChapter(quiz: seq<Chapter>, n: nat)
    requires n < |quiz| && quiz[n].questions != []
    ensures UpTo(quiz, n, |quiz[n].questions|) == quiz[..n + 1]
  {
    assert quiz[n].questions[..|quiz[n].questions|] == quiz[n].questions;
    assert Chapter(quiz[n].title, quiz[n].questions) == quiz[n];
  }

  lemma GroupedOwnStep(quiz: seq<Chapter>, n: nat, k: nat)
    requires Tidy(quiz) && n < |quiz| && k < |quiz[n].questions|
    requires Grouped(OwnUpTo(quiz, n, k)) == UpTo(quiz, n, k)
    ensures Grouped(OwnUpTo(quiz, n, k + 1)) == UpTo(quiz, n, k + 1)
  {
    OwnStep(quiz, n, k);
    AddGroups(OwnUpTo(quiz, n, k), Filed(quiz[n].title, quiz[n].questions[k]));
    AddToUpTo(quiz, n, k);
  }

  lemma GroupedOwnNext(quiz: seq<Chapter>, n: nat)
    requires Tidy(quiz) && n + 1 < |quiz|
    requires Grouped(OwnUpTo(quiz, n, |quiz[n].questions|)) == UpTo(quiz, n, |quiz[n].questions|)
    ensures Grouped(OwnUpTo(quiz, n + 1, 0)) == UpTo(quiz, n + 1, 0)
  {
    assert quiz[n] in quiz;
    OwnNext(quiz, n);
    WholeChapter(quiz, n);
    assert OwnUpTo(quiz, n + 1, 0) == Own(quiz[..n + 1]);
  }

  /** A tidy quiz is the grouping of its own questions. */
  lemma {:induction false} GroupedOwnUpTo(quiz: seq<Chapter>, n: nat, k: nat)
    requires Tidy(quiz) && n < |quiz| && k <= |quiz[n].questions|
    ensures Grouped(OwnUpTo(quiz, n, k)) == UpTo(quiz, n, k)
    decreases n, k
  {
    if k > 0 {
      GroupedOwnUpTo(quiz, n, k - 1);
      GroupedOwnStep(quiz, n, k - 1);
    } else if n > 0 {
      GroupedOwnUpTo(quiz, n - 1, |quiz[n - 1].questions|);
      GroupedOwnNext(quiz, n - 1);
    }
  }

  lemma GroupedOwn(quiz: seq<Chapter>)
    requires Tidy(quiz)
    ensures Grouped(Own(quiz)) == quiz
  {
    if quiz != [] {
      var n := |quiz| - 1;
      assert quiz[n] in quiz;
      GroupedOwnUpTo(quiz, n, |quiz[n].questions|);
      OwnNext(quiz, n);
      assert quiz[..n + 1] == quiz;
      WholeChapter(quiz, n);
    }
  }

  // ── Titles in force ─────────────────────────────────────────────────────────

  lemma CategoryNext(ops: Ops, quiz: seq<Chapter>, n: nat)
    requires n < |quiz|
    ensures CategoryOf(ops, quiz[..n + 1]) ==
              if ReadTitle(ops, quiz[n].title) == "" then CategoryOf(ops, quiz[..n])
              else Some(ReadTitle(ops, quiz[n].title))
  {
    assert quiz[..n + 1][..n] == quiz[..n];
  }

  lemma {:induction false} NoCategoryIff(ops: Ops, quiz: seq<Chapter>, n: nat)
    requires n <= |quiz|
    ensures CategoryOf(ops, quiz[..n]).None? <==> forall j :: 0 <= j < n ==> ReadTitle(ops, quiz[j].title) == ""
  {
    if n > 0 {
      NoCategoryIff(ops, quiz, n - 1);
      CategoryNext(ops, quiz, n - 1);
    }
  }

  /** The title in force throughout chapter `i` is its own. */
  ghost predicate OwnTitleInForce(ops: Ops, quiz: seq<Chapter>, i: nat)
    requires i < |quiz|
  {
    forall q :: q in quiz[i].questions ==> TitleOf(ops, CategoryOf(ops, quiz[..i + 1]), q) == quiz[i].title
  }

  lemma TitleHoldsInForce(ops: Ops, quiz: seq<Chapter>, i: nat)
    requires i < |quiz| && TitleHolds(ops, quiz, i)
    ensures OwnTitleInForce(ops, quiz, i)
  {
    CategoryNext(ops, quiz, i);
    NoCategoryIff(ops, quiz, i);
  }

  lemma InForceTitleHolds(ops: Ops, quiz: seq<Chapter>, i: nat)
    requires Tidy(quiz) && i < |quiz| && forall j :: 0 <= j <= i ==> OwnTitleInForce(ops, quiz, j)
    ensures TitleHolds(ops, quiz, i)
  {
    CategoryNext(ops, quiz, i);
    NoCategoryIff(ops, quiz, i);
    assert quiz[i] in quiz && quiz[i].questions[0] in quiz[i].questions;
    assert OwnTitleInForce(ops, quiz, i);
    if i > 0 {
      assert OwnTitleInForce(ops, quiz, i - 1);
      assert quiz[i - 1] in quiz && quiz[i - 1].questions[0] in quiz[i - 1].questions;
    }
  }

  // ── Sufficiency ─────────────────────────────────────────────────────────────

  /** A question is read as it is, under this title. */
  ghost predicate KeptAs(ops: Ops, category: Option<string>, title: string, q: Question)
  {
    Survivor(ops, q) == Some(q) && TitleOf(ops, category, q) == title
  }

  /** Question `j` of chapter `i` is read as it is, under its own title. */
  ghost predicate KeptInPlace(ops: Ops, quiz: seq<Chapter>, i: nat, j: nat)
    requires i < |quiz| && j < |quiz[i].questions|
  {
    KeptAs(ops, CategoryOf(ops, quiz[..i + 1]), quiz[i].title, quiz[i].questions[j])
  }

  ghost predicate ReadsOwn(ops: Ops, quiz: seq<Chapter>, n: nat, k: nat)
    requires n < |quiz| && k <= |quiz[n].questions|
  {
    ReadUpTo(ops, quiz, n, k) == OwnUpTo(quiz, n, k)
  }

  /** Every question before question `k` of chapter `n` is kept in place. */
  ghost predicate KeptSoFar(ops: Ops, quiz: seq<Chapter>, n: nat, k: nat)
    requires n < |quiz| && k <= |quiz[n].questions|
  {
    && (forall i, j :: 0 <= i < n && 0 <= j < |quiz[i].questions| ==> KeptInPlace(ops, quiz, i, j))
    && forall j :: 0 <= j < k ==> KeptInPlace(ops, quiz, n, j)
  }

  lemma KeptSoFarIff(ops: Ops, quiz: seq<Chapter>, n: nat, k: nat)
    requires n < |quiz| && k < |quiz[n].questions|
    ensures KeptSoFar(ops, quiz, n, k + 1) <==> KeptSoFar(ops, quiz, n, k) && KeptInPlace(ops, quiz, n, k)
  {}

  lemma KeptChaptersIff(ops: Ops, quiz: seq<Chapter>, n: nat)
    requires n + 1 < |quiz|
    ensures KeptSoFar(ops, quiz, n + 1, 0) <==> KeptSoFar(ops, quiz, n, |quiz[n].questions|)
  {}

  lemma {:induction false} SurvivorsAreOwn(ops: Ops, category: Option<string>, title: string, qs: seq<Question>, k: nat)
    requires k <= |qs| && forall j :: 0 <= j < k ==> KeptAs(ops, category, title, qs[j])
    ensures Survivors(ops, category, qs[..k]) == OwnOf(title, qs[..k])
  {
    if k > 0 {
      SurvivorsAreOwn(ops, category, title, qs, k - 1);
      SurvivorsStep(ops, category, qs, k - 1);
      assert KeptAs(ops, category, title, qs[k - 1]);
      OwnOfStep(title, qs, k - 1);
    }
  }

  lemma KeptChapterReadsOwn(ops: Ops, quiz: seq<Chapter>, n: nat, k: nat)
    requires n < |quiz| && k <= |quiz[n].questions|
    requires forall j :: 0 <= j < k ==> KeptInPlace(ops, quiz, n, j)
    ensures Survivors(ops, CategoryOf(ops, quiz[..n + 1]), quiz[n].questions[..k])
         == OwnOf(quiz[n].title, quiz[n].questions[..k])
  {
    var category, title, qs := CategoryOf(ops, quiz[..n + 1]), quiz[n].title, quiz[n].questions;
    forall j | 0 <= j < k ensures KeptAs(ops, category, title, qs[j]) { assert KeptInPlace(ops, quiz, n, j); }
    SurvivorsAreOwn(ops, category, title, qs, k);
  }

  lemma KeptInForceStep(ops: Ops, quiz: seq<Chapter>, n: nat)
    requires n < |quiz| && InForce(ops, quiz[..n]) == Own(quiz[..n])
    requires forall j :: 0 <= j < |quiz[n].questions| ==> KeptInPlace(ops, quiz, n, j)
    ensures InForce(ops, quiz[..n + 1]) == Own(quiz[..n + 1])
  {
    KeptChapterReadsOwn(ops, quiz, n, |quiz[n].questions|);
    ReadNext(ops, quiz, n);
    OwnNext(quiz, n);
  }

  lemma {:induction false} KeptInForce(ops: Ops, quiz: seq<Chapter>, n: nat)
    requires n <= |quiz|
    requires forall i, j :: 0 <= i < n && 0 <= j < |quiz[i].questions| ==> KeptInPlace(ops, quiz, i, j)
    ensures InForce(ops, quiz[..n]) == Own(quiz[..n])
  {
    if n == 0 {
      assert quiz[..0] == [];
    } else {
      KeptInForce(ops, quiz, n - 1);
      KeptInForceStep(ops, quiz, n - 1);
    }
  }

  lemma KeptReadsOwn(ops: Ops, quiz: seq<Chapter>, n: nat, k: nat)
    requires n < |quiz| && k <= |quiz[n].questions| && KeptSoFar(ops, quiz, n, k)
    ensures ReadsOwn(ops, quiz, n, k)
  {
    KeptInForce(ops, quiz, n);
    KeptChapterReadsOwn(ops, quiz, n, k);
  }

  lemma FaithfulKeeps(ops: Ops, quiz: seq<Chapter>, n: nat, k: nat)
    requires Faithful(ops, quiz) && n < |quiz| && k < |quiz[n].questions|
    ensures KeptInPlace(ops, quiz, n, k)
  {
    assert quiz[n] in quiz && quiz[n].questions[k] in quiz[n].questions;
    UnchangedIff(ops, quiz[n].questions[k]);
    TitleHoldsInForce(ops, quiz, n);
  }

  lemma FaithfulComesBack(ops: Ops, quiz: seq<Chapter>)
    requires Faithful(ops, quiz)
    ensures Grouped(InForce(ops, quiz)) == quiz
  {
    forall i, j | 0 <= i < |quiz| && 0 <= j < |quiz[i].questions| ensures KeptInPlace(ops, quiz, i, j) {
      FaithfulKeeps(ops, quiz, i, j);
    }
    KeptInForce(ops, quiz, |quiz|);
    assert quiz[..|quiz|] == quiz;
    GroupedOwn(quiz);
  }

  // ── Necessity ───────────────────────────────────────────────────────────────

  /** Later questions only lengthen chapters and open new ones at the end. */
  ghost predicate Extends(a: seq<Chapter>, b: seq<Chapter>)
  {
    |a| <= |b| && forall i :: 0 <= i < |a| ==> a[i].title == b[i].title && a[i].questions <= b[i].questions
  }

  lemma {:induction false} GroupedExtends(filed: seq<Filed>, n: nat)
    requires n <= |filed|
    ensures Extends(Grouped(filed[..n]), Grouped(filed))
    decreases |filed| - n
  {
    if n == |filed| {
      assert filed[..n] == filed;
    } else {
      var f, cs := filed[n], Grouped(filed[..n]);
      GroupedExtends(filed, n + 1);
      assert filed[..n + 1] == filed[..n] + [f];
      AddGroups(filed[..n], f);
      GroupedIsTidy(filed[..n]);
      AddKeepsTidy(cs, f.title, f.question);
      var longer := Add(cs, f.title, f.question);
      if i :| 0 <= i < |cs| && cs[i].title == f.title {
        assert longer == cs[i := Chapter(f.title, cs[i].questions + [f.question])];
      }
      assert Extends(cs, longer);
    }
  }

  lemma {:induction false} SurvivorsAtMost(ops: Ops, category: Option<string>, qs: seq<Question>)
    ensures |Survivors(ops, category, qs)| <= |qs|
    ensures |Survivors(ops, category, qs)| == |qs| ==> forall q :: q in qs ==> Survivor(ops, q).Some?
  {
    if qs != [] {
      assert qs == qs[..|qs| - 1] + [qs[|qs| - 1]];
      SurvivorsAtMost(ops, category, qs[..|qs| - 1]);
    }
  }

  lemma {:induction false} InForceAtMost(ops: Ops, quiz: seq<Chapter>)
    ensures |InForce(ops, quiz)| <= Questions(quiz)
    ensures |InForce(ops, quiz)| == Questions(quiz) ==>
              forall c, q :: c in quiz && q in c.questions ==> Survivor(ops, q).Some?
  {
    if quiz != [] {
      var front, last := quiz[..|quiz| - 1], quiz[|quiz| - 1];
      assert quiz == front + [last];
      InForceAtMost(ops, front);
      SurvivorsAtMost(ops, CategoryOf(ops, quiz), last.questions);
    }
  }

  /** What is read next can only be the next question under its own title, or open the next chapter. */
  lemma NextIsOwn(quiz: seq<Chapter>, n: nat, k: nat, f: Filed)
    requires Tidy(quiz) && n < |quiz| && k < |quiz[n].questions|
    requires Extends(Add(UpTo(quiz, n, k), f.title, f.question), quiz)
    ensures || f == Filed(quiz[n].title, quiz[n].questions[k])
            || (k > 0 && f.title != quiz[n].title && n + 1 < |quiz| && f.question == quiz[n + 1].questions[0]
                && quiz[n + 1].questions != [])
  {
    var cs := UpTo(quiz, n, k);
    AddToUpTo(quiz, n, k);
    AddKeepsTidy(cs, f.title, f.question);
    var longer := Add(cs, f.title, f.question);
    if i :| 0 <= i < |cs| && cs[i].title == f.title {
      assert longer[i].questions == cs[i].questions + [f.question];
      assert longer[i].questions <= quiz[i].questions;
      if i == n { assert longer[i].questions[k] == f.question; }
    } else {
      assert longer == cs + [Chapter(f.title, [f.question])];
      assert longer[|cs|] == Chapter(f.title, [f.question]);
      assert longer[|cs|].questions[0] == f.question;
    }
  }

  lemma ReadIsPrefix(ops: Ops, quiz: seq<Chapter>, n: nat, k: nat)
    requires n < |quiz| && k <= |quiz[n].questions|
    ensures ReadUpTo(ops, quiz, n, k) <= InForce(ops, quiz)
    decreases |quiz| - n, |quiz[n].questions| - k
  {
    if k < |quiz[n].questions| {
      ReadStep(ops, quiz, n, k);
      ReadIsPrefix(ops, quiz, n, k + 1);
    } else {
      ReadNext(ops, quiz, n);
      if n + 1 < |quiz| {
        assert ReadUpTo(ops, quiz, n + 1, 0) == InForce(ops, quiz[..n + 1]);
        ReadIsPrefix(ops, quiz, n + 1, 0);
      } else {
        assert quiz[..n + 1] == quiz;
      }
    }
  }

  /** The round trip brings `quiz` back and every question of it survives. */
  ghost predicate Back(ops: Ops, quiz: seq<Chapter>)
  {
    && Tidy(quiz) && Grouped(InForce(ops, quiz)) == quiz && NoTrade(ops, quiz)
    && forall c, q :: c in quiz && q in c.questions ==> Survivor(ops, q).Some?
  }

  lemma NextExtends(pre: seq<Filed>, f: Filed, all: seq<Filed>)
    requires pre + [f] <= all
    ensures Extends(Add(Grouped(pre), f.title, f.question), Grouped(all))
  {
    GroupedExtends(all, |pre| + 1);
    assert all[..|pre| + 1] == pre + [f];
    AddGroups(pre, f);
  }

  lemma BackNext(ops: Ops, quiz: seq<Chapter>, n: nat, k: nat, f: Filed)
    requires Back(ops, quiz) && n < |quiz| && k < |quiz[n].questions| && ReadsOwn(ops, quiz, n, k)
    requires ReadUpTo(ops, quiz, n, k + 1) == ReadUpTo(ops, quiz, n, k) + [f]
    ensures Extends(Add(UpTo(quiz, n, k), f.title, f.question), quiz)
  {
    ReadIsPrefix(ops, quiz, n, k + 1);
    NextExtends(ReadUpTo(ops, quiz, n, k), f, InForce(ops, quiz));
    GroupedOwnUpTo(quiz, n, k);
  }

  lemma NoTradeHere(ops: Ops, quiz: seq<Chapter>, n: nat, k: nat)
    requires NoTrade(ops, quiz) && n + 1 < |quiz| && k < |quiz[n].questions| && quiz[n + 1].questions != []
    requires CategoryOf(ops, quiz[..n + 1]).None?
    ensures Survivor(ops, quiz[n].questions[k]) != Some(quiz[n + 1].questions[0])
  {
    NoCategoryIff(ops, quiz, n + 1);
  }

  lemma BackStep(ops: Ops, quiz: seq<Chapter>, n: nat, k: nat)
    requires Back(ops, quiz) && n < |quiz| && k < |quiz[n].questions| && ReadsOwn(ops, quiz, n, k)
    requires k > 0 ==> KeptInPlace(ops, quiz, n, k - 1)
    ensures KeptInPlace(ops, quiz, n, k)
  {
    var q, category := quiz[n].questions[k], CategoryOf(ops, quiz[..n + 1]);
    assert quiz[n] in quiz && q in quiz[n].questions;
    var f := Filed(TitleOf(ops, category, q), Survivor(ops, q).value);
    ReadStep(ops, quiz, n, k);
    BackNext(ops, quiz, n, k, f);
    NextIsOwn(quiz, n, k, f);
    if f != Filed(quiz[n].title, q) && category.None? { NoTradeHere(ops, quiz, n, k); }
  }

  lemma BackGoesOn(ops: Ops, quiz: seq<Chapter>, n: nat, k: nat)
    requires Back(ops, quiz) && n < |quiz| && k < |quiz[n].questions| && KeptSoFar(ops, quiz, n, k)
    ensures KeptInPlace(ops, quiz, n, k)
  {
    KeptReadsOwn(ops, quiz, n, k);
    BackStep(ops, quiz, n, k);
  }

  /** Where everything before it is kept, the next question is. */
  ghost predicate GoesOn(ops: Ops, quiz: seq<Chapter>)
  {
    forall n: nat, k: nat :: n < |quiz| && k < |quiz[n].questions| && KeptSoFar(ops, quiz, n, k) ==>
      KeptInPlace(ops, quiz, n, k)
  }

  lemma {:induction false} GoesOnKeeps(ops: Ops, quiz: seq<Chapter>, n: nat, k: nat)
    requires GoesOn(ops, quiz) && n < |quiz| && k <= |quiz[n].questions|
    ensures KeptSoFar(ops, quiz, n, k)
    decreases n, k
  {
    if k > 0 {
      GoesOnKeeps(ops, quiz, n, k - 1);
      KeptSoFarIff(ops, quiz, n, k - 1);
    } else if n > 0 {
      GoesOnKeeps(ops, quiz, n - 1, |quiz[n - 1].questions|);
      KeptChaptersIff(ops, quiz, n - 1);
    }
  }

  lemma BackGoesOnThroughout(ops: Ops, quiz: seq<Chapter>)
    requires Back(ops, quiz)
    ensures GoesOn(ops, quiz)
  {
    forall i: nat, j: nat | i < |quiz| && j < |quiz[i].questions| && KeptSoFar(ops, quiz, i, j)
      ensures KeptInPlace(ops, quiz, i, j)
    {
      BackGoesOn(ops, quiz, i, j);
    }
  }

  lemma KeptChapter(ops: Ops, quiz: seq<Chapter>, i: nat)
    requires i < |quiz| && KeptSoFar(ops, quiz, i, |quiz[i].questions|)
    ensures OwnTitleInForce(ops, quiz, i) && forall q :: q in quiz[i].questions ==> Unchanged(ops, q)
  {
    forall q | q in quiz[i].questions
      ensures TitleOf(ops, CategoryOf(ops, quiz[..i + 1]), q) == quiz[i].title && Unchanged(ops, q)
    {
      var j :| 0 <= j < |quiz[i].questions| && quiz[i].questions[j] == q;
      assert KeptInPlace(ops, quiz, i, j);
      UnchangedIff(ops, q);
    }
  }

  lemma BackIsFaithful(ops: Ops, quiz: seq<Chapter>)
    requires Back(ops, quiz) && quiz != []
    ensures Faithful(ops, quiz)
  {
    BackGoesOnThroughout(ops, quiz);
    forall i | 0 <= i < |quiz|
      ensures OwnTitleInForce(ops, quiz, i) && forall q :: q in quiz[i].questions ==> Unchanged(ops, q)
    {
      GoesOnKeeps(ops, quiz, i, |quiz[i].questions|);
      KeptChapter(ops, quiz, i);
    }
    forall i | 0 <= i < |quiz| ensures TitleHolds(ops, quiz, i) { InForceTitleHolds(ops, quiz, i); }
  }

  /** Copies of a question trade places: no title is read from the start, some chapter begins with what
      a question of the chapter before it is read as, and yet each title of the quiz is used, in order,
      for a list of questions that reads like its chapter. */
  ghost predicate Traded(ops: Ops, quiz: seq<Chapter>)
  {
    var filed := InForce(ops, quiz);
    && quiz != [] && !NoTrade(ops, quiz) && |Titles(filed)| == |quiz|
    && forall i :: 0 <= i < |quiz| ==>
         Titles(filed)[i] == quiz[i].title && Under(filed, quiz[i].title) == quiz[i].questions
  }

  lemma GroupedIff(filed: seq<Filed>, quiz: seq<Chapter>)
    ensures Grouped(filed) == quiz <==>
              && |Titles(filed)| == |quiz|
              && forall i :: 0 <= i < |quiz| ==>
                   Titles(filed)[i] == quiz[i].title && Under(filed, quiz[i].title) == quiz[i].questions
  {
    var titles := Titles(filed);
    if |titles| == |quiz| {
      forall i | 0 <= i < |quiz|
        ensures Grouped(filed)[i] == quiz[i] <==>
                  titles[i] == quiz[i].title && Under(filed, quiz[i].title) == quiz[i].questions
      {
        assert Grouped(filed)[i] == Chapter(titles[i], Under(filed, titles[i]));
      }
    }
  }

  lemma GroupsBackIff(ops: Ops, quiz: seq<Chapter>)
    requires quiz != [] && NoTrade(ops, quiz)
    ensures Grouped(InForce(ops, quiz)) == quiz <==> Faithful(ops, quiz)
  {
    if Grouped(InForce(ops, quiz)) == quiz {
      GroupedCounts(InForce(ops, quiz));
      GroupedIsTidy(InForce(ops, quiz));
      InForceAtMost(ops, quiz);
      BackIsFaithful(ops, quiz);
    }
    if Faithful(ops, quiz) { FaithfulComesBack(ops, quiz); }
  }

  lemma NoQuestions(ops: Ops, quiz: seq<Chapter>)
    requires quiz == [Chapter("Questions", [])]
    ensures InForce(ops, quiz) == []
  {
    assert quiz[..0] == [];
  }

  /** A round trip is the identity exactly when titles differ and hold, no chapter is empty and every
      text comes back as it is; or when copies trade places; or for the quiz that stands for no
      questions at all. */
  lemma RoundTripIff(ops: Ops, quiz: seq<Chapter>)
    requires Fits(quiz)
    ensures Parse(ops, Export(quiz)) == quiz <==>
              Faithful(ops, quiz) || Traded(ops, quiz) || quiz == [Chapter("Questions", [])]
  {
    ParseOfExport(ops, quiz);
    if quiz == [Chapter("Questions", [])] {
      NoQuestions(ops, quiz);
    } else {
      GroupedIff(InForce(ops, quiz), quiz);
      if Faithful(ops, quiz) {
        FaithfulComesBack(ops, quiz);
      } else if quiz != [] && NoTrade(ops, quiz) {
        GroupsBackIff(ops, quiz);
      }
    }
  }

  lemma OneSurvivor(ops: Ops, title: string, q: Question)
    requires Unchanged(ops, q)
    ensures Survivors(ops, Some(title), [q]) == [Filed(title, q)]
  {
    UnchangedIff(ops, q);
    assert [q][..0] == [] && Survivors(ops, Some(title), [q][..0]) == [];
  }

  lemma TwoSurvivors(ops: Ops, category: Option<string>, p: Question, q: Question)
    requires Unchanged(ops, p) && Unchanged(ops, q)
    ensures Survivors(ops, category, [p, q])
         == [Filed(TitleOf(ops, category, p), p), Filed(TitleOf(ops, category, q), q)]
  {
    var qs, first := [p, q], Filed(TitleOf(ops, category, p), p);
    UnchangedIff(ops, p);
    UnchangedIff(ops, q);
    assert Survivors(ops, category, qs[..1]) == [first] by {
      SurvivorsStep(ops, category, qs, 0);
      assert qs[..0] == [];
    }
    SurvivorsStep(ops, category, qs, 1);
    assert qs[..2] == qs;
  }

  lemma GroupedTrade(a: string, b: string, p: Question, q: Question)
    requires a != b
    ensures Grouped([Filed(a, p), Filed(b, q), Filed(a, q)]) == [Chapter(a, [p, q]), Chapter(b, [q])]
  {
    assert Grouped([]) == [] && [] + [Filed(a, p)] == [Filed(a, p)];
    AddGroups([], Filed(a, p));
    AddGroups([Filed(a, p)], Filed(b, q));
    AddOpens([Chapter(a, [p])], b, q);
    assert [Filed(a, p)] + [Filed(b, q)] == [Filed(a, p), Filed(b, q)];
    AddGroups([Filed(a, p), Filed(b, q)], Filed(a, q));
    assert [Filed(a, p), Filed(b, q)] + [Filed(a, q)] == [Filed(a, p), Filed(b, q), Filed(a, q)];
    AddJoins([Chapter(a, [p]), Chapter(b, [q])], a, q, 0);
    assert [p] + [q] == [p, q];
    assert [Chapter(a, [p]), Chapter(b, [q])][0 := Chapter(a, [p, q])] == [Chapter(a, [p, q]), Chapter(b, [q])];
  }

  lemma TradeRead(ops: Ops, a: string, b: string, p: Question, q: Question)
    requires Unchanged(ops, p) && Unchanged(ops, q) && ReadTitle(ops, a) == "" && ReadTitle(ops, b) == a != ""
    requires TitleOf(ops, None, p) == a && TitleOf(ops, None, q) == b
    ensures InForce(ops, [Chapter(a, [p, q]), Chapter(b, [q])]) == [Filed(a, p), Filed(b, q), Filed(a, q)]
  {
    var one := [Chapter(a, [p, q])];
    var quiz := one + [Chapter(b, [q])];
    CategoryNext(ops, quiz, 0);
    CategoryNext(ops, quiz, 1);
    assert quiz[..0] == [] && quiz[..1] == one && quiz[..2] == quiz && one[..0] == [];
    TwoSurvivors(ops, None, p, q);
    OneSurvivor(ops, a, q);
    assert InForce(ops, one) == [Filed(a, p), Filed(b, q)];
  }

  /** If the first title `a` is read as nothing and the second, `b`, is read as `a`, two copies of `q`
      that are read in each other's chapter give the same quiz again. `R&D` and `R&D<` are such titles
      for a stripper that withholds the text after an unfinished ampersand. */
  lemma TradeGoesUnnoticed(ops: Ops, a: string, b: string, p: Question, q: Question)
    requires Unchanged(ops, p) && Unchanged(ops, q) && ReadTitle(ops, a) == "" && ReadTitle(ops, b) == a != ""
    requires TitleOf(ops, None, p) == a && TitleOf(ops, None, q) == b != a
    ensures var quiz := [Chapter(a, [p, q]), Chapter(b, [q])];
            Traded(ops, quiz) && !Faithful(ops, quiz)
  {
    TradeRead(ops, a, b, p, q);
    GroupedTrade(a, b, p, q);
    var quiz := [Chapter(a, [p, q]), Chapter(b, [q])];
    GroupedIff(InForce(ops, quiz), quiz);
    UnchangedIff(ops, q);
    assert quiz[0].questions[1] == q && q in quiz[0].questions && quiz[1].questions[0] == q;
    assert !TitleHolds(ops, quiz, 0);
  }

  /** Text that neither stripping nor trimming changes. */
  ghost predicate PlainText(ops: Ops, s: string) { s != "" && ops.strip(s) == s }

  ghost predicate PlainTitle(ops: Ops, t: string)
  {
    t != "" && '/' !in t && ops.trim(t) == t && ops.strip(PREFIX + t) == PREFIX + t
  }

  ghost predicate PlainQuestion(ops: Ops, q: Question)
  {
    && PlainText(ops, q.text) && (q.explanation != "" ==> PlainText(ops, q.explanation))
    && q.answers != [] && forall a :: a in q.answers ==> PlainText(ops, a.text)
  }

  ghost predicate Plain(ops: Ops, quiz: seq<Chapter>)
  {
    && (forall c :: c in quiz ==> PlainTitle(ops, c.title) && c.questions != [])
    && (forall c, q :: c in quiz && q in c.questions ==> PlainQuestion(ops, q))
    && (forall i, j :: 0 <= i < j < |quiz| ==> quiz[i].title != quiz[j].title)
  }

  lemma PlainTitleKept(ops: Ops, t: string)
    requires PlainTitle(ops, t)
    ensures ReadTitle(ops, t) == t
  {
    var s, n := PREFIX + t, |PREFIX|;
    assert s[n - 1] == '/';
    forall j | n - 1 < j < |s| ensures s[j] != '/' { assert s[j] == t[j - n]; }
    LastSlash(s, n - 1);
    assert s[n..] == t;
  }

  lemma PlainIsFaithful(ops: Ops, quiz: seq<Chapter>)
    requires Plain(ops, quiz) && quiz != []
    ensures Faithful(ops, quiz) && NoTrade(ops, quiz)
  {
    forall i | 0 <= i < |quiz| ensures ReadTitle(ops, quiz[i].title) == quiz[i].title != "" {
      assert quiz[i] in quiz;
      PlainTitleKept(ops, quiz[i].title);
    }
    forall c, q | c in quiz && q in c.questions ensures Unchanged(ops, q) { assert PlainQuestion(ops, q); }
    forall i | 0 <= i < |quiz| ensures TitleHolds(ops, quiz, i) {}
  }

  /** A quiz with distinct plain titles, plain texts and no empty chapter comes back unchanged. */
  lemma PlainQuizRoundTrip(ops: Ops, quiz: seq<Chapter>)
    requires Fits(quiz) && Plain(ops, quiz) && quiz != []
    ensures Parse(ops, Export(quiz)) == quiz
  {
    PlainIsFaithful(ops, quiz);
    RoundTripIff(ops, quiz);
  }

  lemma SecondTitleEmpty(ops: Ops, one: seq<Chapter>, qs: seq<Question>)
    requires |one| == 1 && ReadTitle(ops, one[0].title) == one[0].title != ""
    requires ops.strip(PREFIX) == PREFIX && ops.trim("") == ""
    ensures CategoryOf(ops, one + [Chapter("", qs)]) == Some(one[0].title)
  {
    var two := one + [Chapter("", qs)];
    LastSlash(PREFIX, |PREFIX| - 1);
    assert PREFIX + "" == PREFIX;
    CategoryNext(ops, two, 0);
    CategoryNext(ops, two, 1);
    assert two[..1] == one && two[..2] == two && two[..0] == [];
  }

  /** A second chapter whose title is empty loses it: its question joins the first chapter. */
  lemma EmptyTitleMerges(ops: Ops, first: Chapter, q: Question)
    requires Fits([first, Chapter("", [q])]) && Plain(ops, [first]) && PlainQuestion(ops, q)
    requires ops.strip(PREFIX) == PREFIX && ops.trim("") == ""
    ensures Parse(ops, Export([first, Chapter("", [q])])) == [Chapter(first.title, first.questions + [q])]
  {
    var one, two, f := [first], [first] + [Chapter("", [q])], Filed(first.title, q);
    assert first in one && two == [first, Chapter("", [q])];
    ParseOfExport(ops, two);
    PlainIsFaithful(ops, one);
    FaithfulComesBack(ops, one);
    PlainTitleKept(ops, first.title);
    SecondTitleEmpty(ops, one, [q]);
    OneSurvivor(ops, first.title, q);
    assert two[..1] == one && InForce(ops, two) == InForce(ops, one) + [f];
    AddGroups(InForce(ops, one), f);
    AddJoins(one, first.title, q, 0);
  }
}
