/** The home page (core/views.py, `home`): the question list, optionally
    filtered by a skill given as a query parameter and capped at 25, and
    the adaptive summary over the user's 50 most recent attempts. */
module Home {
  import opened Basics
  import opened PyText
  import opened Models
  import opened Adaptive

  /** How the `skill` query parameter selects questions. */
  datatype Selection =
    | Unfiltered
    | Filtered(skill: Skill)
      /** A non-empty parameter that is not an integer: Django's primary-key
          lookup raises `ValueError` and the request fails. */
    | InvalidId(raw: string)

  /** What the view returns. */
  datatype HomeResponse =
    | HomePage(
        questions: seq<Question>,
        activeSkill: Option<Skill>,
        firstQuestion: Option<Question>,
        stats: Stats,
        smartSkill: Option<Skill>,
        smartQuestion: Option<Question>)
    | ServerError(raw: string)

  /** The skill filter: `if skill_id:` then `Skill.objects.filter(pk=skill_id).first()`. */
  function ActiveSkill(skills: seq<Skill>, param: Option<string>): (r: Selection)
    ensures r.InvalidId? <==> param.Some? && param.value != "" && ParseInt(param.value).None?
    ensures r.Filtered? ==> r.skill in skills && param.Some? && ParseInt(param.value) == Some(r.skill.id as int)
    ensures r.Unfiltered? ==>
      param.None? || param.value == "" || forall s | s in skills :: ParseInt(param.value) != Some(s.id as int)
  {
    if param.None? || param.value == "" then Unfiltered
    else match ParseInt(param.value)
      case None => InvalidId(param.value)
      case Some(id) =>
        match FindSkill(skills, id)
        case None => Unfiltered
        case Some(s) => Filtered(s)
  }

  /** The skill links of the page post a skill's key as text; following one
      filters by exactly that skill. */
  lemma SkillLinkFilters(skills: seq<Skill>, s: Skill)
    requires SkillsInPkOrder(skills) && s in skills
    ensures ActiveSkill(skills, Some(IntToString(s.id))) == Filtered(s)
  {
    ParseIntToString(s.id);
    var r := ActiveSkill(skills, Some(IntToString(s.id)));
    assert NatDigits(s.id) != [];
    var t := FindSkill(skills, s.id);
    assert t.Some?;
    var i :| 0 <= i < |skills| && skills[i] == s;
    var j :| 0 <= j < |skills| && skills[j] == t.value;
    assert i == j;
  }

  /** `Question.objects.filter(skill=...)`, keeping key order. */
  function OfSkill(questions: seq<Question>, skill: nat): (r: seq<Question>)
    ensures forall q | q in r :: q in questions && q.skill == skill
    ensures forall q | q in questions && q.skill == skill :: q in r
  {
    if questions == [] then []
    else
      var rest := OfSkill(questions[1..], skill);
      if questions[0].skill == skill then [questions[0]] + rest else rest
  }

  /** Filtering by skill keeps key order. */
  lemma {:induction false} OfSkillInPkOrder(questions: seq<Question>, skill: nat)
    requires QuestionsInPkOrder(questions)
    ensures QuestionsInPkOrder(OfSkill(questions, skill))
  {
    if questions != [] {
      PkOrderTail(questions);
      OfSkillInPkOrder(questions[1..], skill);
      if questions[0].skill == skill {
        PkOrderCons(questions[0], OfSkill(questions[1..], skill));
      }
    }
  }

  /** Does question `q` pass the filter? */
  predicate Matches(sel: Selection, q: Question)
  {
    sel.Filtered? ==> q.skill == sel.skill.id
  }

  /** The question list: the questions in key order, filtered, first 25. */
  function SelectQuestions(questions: seq<Question>, sel: Selection): seq<Question>
  {
    var pool := if sel.Filtered? then OfSkill(questions, sel.skill.id) else questions;
    Take(pool, 25)
  }

  /** The list holds at most 25 questions of the table, in key order, all
      passing the filter (every question when there is no filter), and no
      passing question with a lower key is left out. */
  lemma SelectQuestionsSpec(questions: seq<Question>, sel: Selection)
    requires QuestionsInPkOrder(questions)
    ensures var r := SelectQuestions(questions, sel);
      && |r| <= 25
      && QuestionsInPkOrder(r)
      && (forall q | q in r :: q in questions && Matches(sel, q))
      && (forall q | q in questions && Matches(sel, q) && q !in r ::
            |r| == 25 && forall x | x in r :: x.id < q.id)
  {
    var pool := if sel.Filtered? then OfSkill(questions, sel.skill.id) else questions;
    if sel.Filtered? {
      OfSkillInPkOrder(questions, sel.skill.id);
    }
    var r := Take(pool, 25);
    assert forall k | 0 <= k < |r| :: r[k] == pool[k];
    forall q | q in questions && Matches(sel, q) && q !in r
      ensures |r| == 25 && forall x | x in r :: x.id < q.id
    {
      assert q in pool;
      var p :| 0 <= p < |pool| && pool[p] == q;
      assert p >= |r|;
      forall x | x in r
        ensures x.id < q.id
      {
        var k :| 0 <= k < |r| && r[k] == x;
      }
    }
  }

  /** The current question: the list's head, if any. */
  function FirstOf(qs: seq<Question>): (r: Option<Question>)
    ensures r.None? <==> qs == []
    ensures r.Some? ==> r.value == qs[0]
  {
    if qs == [] then None else Some(qs[0])
  }

  /** A user's attempts, in table order. */
  function OfUser(rows: seq<Attempt>, user: nat): (r: seq<Attempt>)
    ensures |r| <= |rows|
    ensures forall a | a in r :: a in rows && a.user == user
    ensures forall a | a in rows && a.user == user :: a in r
  {
    if rows == [] then []
    else
      var rest := OfUser(rows[1..], user);
      if rows[0].user == user then [rows[0]] + rest else rest
  }

  /** The first row is older than every later attempt of the user. */
  lemma HeadBeforeRest(rows: seq<Attempt>, user: nat)
    requires rows != [] && Chronological(rows)
    ensures forall a | a in OfUser(rows[1..], user) :: rows[0].id < a.id && rows[0].createdAt <= a.createdAt
  {
    forall a | a in OfUser(rows[1..], user)
      ensures rows[0].id < a.id && rows[0].createdAt <= a.createdAt
    {
      assert a in rows[1..];
      var k :| 0 <= k < |rows| - 1 && rows[1..][k] == a;
      assert rows[k + 1] == a;
    }
  }

  /** Dropping the oldest row keeps the rest in creation order. */
  lemma ChronologicalTail(rows: seq<Attempt>)
    requires rows != [] && Chronological(rows)
    ensures Chronological(rows[1..])
  {
    forall i, j | 0 <= i < j < |rows| - 1
      ensures rows[1..][i].id < rows[1..][j].id && rows[1..][i].createdAt <= rows[1..][j].createdAt
    {
      assert rows[1..][i] == rows[i + 1] && rows[1..][j] == rows[j + 1];
    }
  }

  /** A row older than every row of a creation-ordered list can go first. */
  lemma ChronologicalCons(x: Attempt, rest: seq<Attempt>)
    requires Chronological(rest)
    requires forall a | a in rest :: x.id < a.id && x.createdAt <= a.createdAt
    ensures Chronological([x] + rest)
  {
    var r := [x] + rest;
    forall i, j | 0 <= i < j < |r|
      ensures r[i].id < r[j].id && r[i].createdAt <= r[j].createdAt
    {
      assert r[j] == rest[j - 1];
      if i == 0 {
        assert r[j] in rest;
      } else {
        assert r[i] == rest[i - 1];
      }
    }
  }

  /** Keeping one user's attempts keeps them in creation order. */
  lemma {:induction false} OfUserChronological(rows: seq<Attempt>, user: nat)
    requires Chronological(rows)
    ensures Chronological(OfUser(rows, user))
  {
    if rows != [] {
      ChronologicalTail(rows);
      OfUserChronological(rows[1..], user);
      if rows[0].user == user {
        HeadBeforeRest(rows, user);
        ChronologicalCons(rows[0], OfUser(rows[1..], user));
      }
    }
  }

  function Reverse(s: seq<Attempt>): (r: seq<Attempt>)
    ensures |r| == |s|
    ensures forall i | 0 <= i < |s| :: r[i] == s[|s| - 1 - i]
  {
    if s == [] then [] else [s[|s| - 1]] + Reverse(s[..|s| - 1])
  }

  /** The attempt window: the user's attempts, newest first, at most 50. */
  function RecentWindow(rows: seq<Attempt>, user: nat): (w: seq<Attempt>)
    ensures |w| == if |OfUser(rows, user)| <= 50 then |OfUser(rows, user)| else 50
    ensures forall k | 0 <= k < |w| :: w[k] == OfUser(rows, user)[|OfUser(rows, user)| - 1 - k]
  {
    Take(Reverse(OfUser(rows, user)), 50)
  }

  /** The window holds only the user's attempts. */
  lemma RecentWindowOwn(rows: seq<Attempt>, user: nat)
    ensures forall a | a in RecentWindow(rows, user) :: a in rows && a.user == user
  {
    var f := OfUser(rows, user);
    var w := RecentWindow(rows, user);
    forall a | a in w
      ensures a in rows && a.user == user
    {
      var k :| 0 <= k < |w| && w[k] == a;
      assert a == f[|f| - 1 - k];
    }
  }

  /** The window is newest first: creation time never increases along it. */
  lemma RecentWindowNewestFirst(rows: seq<Attempt>, user: nat)
    requires Chronological(rows)
    ensures var w := RecentWindow(rows, user);
      forall i, j | 0 <= i < j < |w| :: w[j].createdAt <= w[i].createdAt && w[j].id < w[i].id
  {
    OfUserChronological(rows, user);
  }

  /** In a creation-ordered list, an element not among the last `|w|`
      ones is older than every one of them. */
  lemma OlderThanTail(f: seq<Attempt>, w: seq<Attempt>, p: nat)
    requires Chronological(f) && p < |f| && |w| <= |f| - 1 - p
    requires forall k | 0 <= k < |w| :: w[k] == f[|f| - 1 - k]
    ensures forall b | b in w :: f[p].createdAt <= b.createdAt && f[p].id < b.id
  {
    forall b | b in w
      ensures f[p].createdAt <= b.createdAt && f[p].id < b.id
    {
      var k :| 0 <= k < |w| && w[k] == b;
      assert b == f[|f| - 1 - k];
    }
  }

  /** The element at `p` sits in the window at `|f| - 1 - p` when the
      window reaches that far. */
  lemma WindowAt(f: seq<Attempt>, w: seq<Attempt>, p: nat)
    requires |w| <= |f| && p < |f|
    requires forall k | 0 <= k < |w| :: w[k] == f[|f| - 1 - k]
    ensures |f| - 1 - p < |w| ==> w[|f| - 1 - p] == f[p]
  {
  }

  /** In a creation-ordered list, an element missing from the window of
      its newest elements, newest first, is older than each of them, and
      the window is full. */
  lemma LeftOutOf(f: seq<Attempt>, w: seq<Attempt>, a: Attempt)
    requires Chronological(f)
    requires |w| == if |f| <= 50 then |f| else 50
    requires forall k | 0 <= k < |w| :: w[k] == f[|f| - 1 - k]
    requires a in f && a !in w
    ensures |w| == 50 && forall b | b in w :: a.createdAt <= b.createdAt && a.id < b.id
  {
    var p :| 0 <= p < |f| && f[p] == a;
    WindowAt(f, w, p);
    assert |f| - 1 - p < |w| ==> a in w;
    OlderThanTail(f, w, p);
  }

  /** One attempt of the user left out of the window. */
  lemma LeftOut(rows: seq<Attempt>, user: nat, a: Attempt)
    requires Chronological(OfUser(rows, user))
    requires a in rows && a.user == user && a !in RecentWindow(rows, user)
    ensures var w := RecentWindow(rows, user);
      |w| == 50 && forall b | b in w :: a.createdAt <= b.createdAt && a.id < b.id
  {
    LeftOutOf(OfUser(rows, user), RecentWindow(rows, user), a);
  }

  /** Every attempt of the user left out of the window is no newer than all
      those kept, and only a full window leaves any out. */
  lemma RecentWindowNewest(rows: seq<Attempt>, user: nat)
    requires Chronological(rows)
    ensures var w := RecentWindow(rows, user);
      forall a | a in rows && a.user == user && a !in w ::
        |w| == 50 && forall b | b in w :: a.createdAt <= b.createdAt && a.id < b.id
  {
    OfUserChronological(rows, user);
    forall a | a in rows && a.user == user && a !in RecentWindow(rows, user)
      ensures var w := RecentWindow(rows, user);
        |w| == 50 && forall b | b in w :: a.createdAt <= b.createdAt && a.id < b.id
    {
      LeftOut(rows, user, a);
    }
  }

  /** The whole view, for the user `user` (the signed-in user or the demo
      user) over the three tables. */
  function HomeView(skills: seq<Skill>, questions: seq<Question>, attempts: seq<Attempt>, user: nat,
                    param: Option<string>): (r: HomeResponse)
    ensures r.ServerError? <==> param.Some? && param.value != "" && ParseInt(param.value).None?
    ensures r.HomePage? ==>
      && |r.questions| <= 25
      && r.firstQuestion == FirstOf(r.questions)
      && r.stats.total == |RecentWindow(attempts, user)| <= 50
      && (r.activeSkill.Some? ==> r.activeSkill.value in skills && forall q | q in r.questions :: q.skill == r.activeSkill.value.id)
      && (r.activeSkill.None? ==> r.questions == Take(questions, 25))
  {
    var sel := ActiveSkill(skills, param);
    if sel.InvalidId? then ServerError(sel.raw)
    else
      var qs := SelectQuestions(questions, sel);
      var rows := Join(skills, questions, RecentWindow(attempts, user));
      var st := Summarize(rows);
      var smart := Recommend(st.weakestSkillName, skills, questions);
      HomePage(qs, if sel.Filtered? then Some(sel.skill) else None, FirstOf(qs), st, smart.0, smart.1)
  }

  /** With a well-formed database, the summary counts every attempt of the
      window, and it has an average and a weakest skill exactly when the
      user has an attempt (stored scores are never null). */
  lemma HomeSummaryComplete(skills: seq<Skill>, questions: seq<Question>, attempts: seq<Attempt>,
                            user: nat, param: Option<string>)
    requires QuestionSkillsExist(skills, questions)
    requires AttemptQuestionsExist(questions, attempts)
    requires AllScored(attempts)
    requires HomeView(skills, questions, attempts, user, param).HomePage?
    ensures var st := HomeView(skills, questions, attempts, user, param).stats;
      && (st.avgScore.Some? <==> OfUser(attempts, user) != [])
      && (st.weakestSkillName.Some? <==> OfUser(attempts, user) != [])
  {
    var w := RecentWindow(attempts, user);
    var f := OfUser(attempts, user);
    RecentWindowOwn(attempts, user);
    forall k | 0 <= k < |w|
      ensures FindQuestion(questions, w[k].question).Some? && w[k].score.Some?
    {
      assert w[k] in attempts;
      var i :| 0 <= i < |attempts| && attempts[i] == w[k];
    }
    assert AttemptQuestionsExist(questions, w) && AllScored(w);
    JoinComplete(skills, questions, w);
    var rows := Join(skills, questions, w);
    SkillsExistWhenScored(rows);
    if f != [] {
      assert |w| > 0;
      assert rows[0].score.Some?;
    }
  }

  /** The recommendation shown is the lowest-key question of the first skill
      (in key order) named like the weakest skill, when that name is not
      empty; without a weakest skill nothing is recommended. */
  lemma HomeRecommendation(skills: seq<Skill>, questions: seq<Question>, attempts: seq<Attempt>,
                           user: nat, param: Option<string>)
    requires SkillsInPkOrder(skills) && QuestionsInPkOrder(questions)
    requires HomeView(skills, questions, attempts, user, param).HomePage?
    ensures var h := HomeView(skills, questions, attempts, user, param);
      && (h.stats.weakestSkillName.None? ==> h.smartSkill.None? && h.smartQuestion.None?)
      && (h.smartSkill.Some? ==>
            && h.stats.weakestSkillName == Some(h.smartSkill.value.name)
            && h.smartSkill.value in skills
            && forall s | s in skills && s.name == h.smartSkill.value.name :: h.smartSkill.value.id <= s.id)
      && (h.smartQuestion.Some? ==>
            && h.smartSkill.Some? && h.smartQuestion.value in questions
            && h.smartQuestion.value.skill == h.smartSkill.value.id
            && forall q | q in questions && q.skill == h.smartSkill.value.id :: h.smartQuestion.value.id <= q.id)
  {
  }
}
