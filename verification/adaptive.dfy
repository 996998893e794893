/** The adaptive summary of the home page (core/views.py, `home`): from a
    user's most recent attempts, newest first, the number of attempts, the
    mean score, the skills with the highest and the lowest mean, and a
    recommended question for the weakest skill. */
module Adaptive {
  import opened Basics
  import opened Models

  /** One attempt of the window joined through its question to its skill
      (`a.score`, `a.question.skill`). Once every foreign key resolves the
      skill is always present (`JoinComplete`); `None` stands only for the
      view's defensive `if not skill` test. */
  datatype Row = Row(score: Option<int>, skill: Option<Skill>)

  /** A scored attempt (an element of `scored_attempts`). */
  datatype Entry = Entry(skill: Option<Skill>, score: int)

  /** One value of the `by_skill` dictionary: a skill and its scores in the
      order they were met. */
  datatype Bucket = Bucket(skill: Skill, scores: seq<int>)

  /** The statistics the home page shows. */
  datatype Stats = Stats(
    total: nat,
    avgScore: Option<real>,
    bestSkillName: Option<string>,
    weakestSkillName: Option<string>)

  /** Join one attempt to its skill through its question. */
  function JoinRow(skills: seq<Skill>, questions: seq<Question>, a: Attempt): (r: Row)
    ensures r.score == a.score
    ensures r.skill.Some? ==>
      && FindQuestion(questions, a.question).Some?
      && r.skill.value in skills
      && r.skill.value.id == FindQuestion(questions, a.question).value.skill
    ensures FindQuestion(questions, a.question).Some? && QuestionSkillsExist(skills, questions) ==> r.skill.Some?
  {
    match FindQuestion(questions, a.question)
    case None => Row(a.score, None)
    case Some(q) => Row(a.score, FindSkill(skills, q.skill))
  }

  /** The window joined row by row (`select_related("question__skill")`). */
  function Join(skills: seq<Skill>, questions: seq<Question>, window: seq<Attempt>): (rows: seq<Row>)
    ensures |rows| == |window|
    ensures forall i | 0 <= i < |window| :: rows[i] == JoinRow(skills, questions, window[i])
  {
    seq(|window|, i requires 0 <= i < |window| => JoinRow(skills, questions, window[i]))
  }

  /** Under the foreign-key constraints every joined row has a score and a
      skill, so neither filter of the view drops anything. */
  lemma JoinComplete(skills: seq<Skill>, questions: seq<Question>, window: seq<Attempt>)
    requires QuestionSkillsExist(skills, questions)
    requires AttemptQuestionsExist(questions, window)
    requires AllScored(window)
    ensures var rows := Join(skills, questions, window);
      forall i | 0 <= i < |rows| :: rows[i].score.Some? && rows[i].skill.Some?
  {
  }

  /** `[a for a in recent_attempts if a.score is not None]`. */
  function Scored(rows: seq<Row>): (es: seq<Entry>)
    ensures |es| <= |rows|
    ensures es == [] <==> forall i | 0 <= i < |rows| :: rows[i].score.None?
    ensures (forall i | 0 <= i < |rows| :: rows[i].score.Some?) ==> |es| == |rows|
    ensures (forall i | 0 <= i < |rows| :: rows[i].skill.Some?) ==>
      forall k | 0 <= k < |es| :: es[k].skill.Some?
  {
    if rows == [] then []
    else
      var r := rows[|rows| - 1];
      Scored(rows[..|rows| - 1]) + (if r.score.Some? then [Entry(r.skill, r.score.value)] else [])
  }

  /** `len(scored_attempts)`: how many rows have a score, counted from the
      front, independently of `Scored`. */
  function CountPresent(rows: seq<Row>): nat
  {
    if rows == [] then 0 else (if rows[0].score.Some? then 1 else 0) + CountPresent(rows[1..])
  }

  /** `total_score`: the sum of the scores present, from the front. */
  function SumPresent(rows: seq<Row>): int
  {
    if rows == [] then 0 else (if rows[0].score.Some? then rows[0].score.value else 0) + SumPresent(rows[1..])
  }

  lemma {:induction false} PresentAppend(rows: seq<Row>, r: Row)
    ensures CountPresent(rows + [r]) == CountPresent(rows) + (if r.score.Some? then 1 else 0)
    ensures SumPresent(rows + [r]) == SumPresent(rows) + (if r.score.Some? then r.score.value else 0)
  {
    if rows != [] {
      assert (rows + [r])[1..] == rows[1..] + [r];
      PresentAppend(rows[1..], r);
    }
  }

  /** One entry per scored row. */
  lemma {:induction false} ScoredCount(rows: seq<Row>)
    ensures |Scored(rows)| == CountPresent(rows)
  {
    if rows != [] {
      var p := rows[..|rows| - 1];
      assert p + [rows[|rows| - 1]] == rows;
      ScoredCount(p);
      PresentAppend(p, rows[|rows| - 1]);
    }
  }

  /** The entries' scores add up to the sum of the scores present. */
  lemma {:induction false} ScoredSum(rows: seq<Row>)
    ensures Sum(Scores(Scored(rows))) == SumPresent(rows)
  {
    if rows != [] {
      var p := rows[..|rows| - 1];
      var r := rows[|rows| - 1];
      assert p + [r] == rows;
      ScoredSum(p);
      PresentAppend(p, r);
      var xs := Scores(Scored(rows));
      if r.score.Some? {
        assert xs[..|xs| - 1] == Scores(Scored(p));
      } else {
        assert xs == Scores(Scored(p));
      }
    }
  }

  /** The scored row at position `i` is entry number `CountPresent(rows[..i])`. */
  lemma {:induction false} ScoredAt(rows: seq<Row>, i: nat)
    requires i < |rows| && rows[i].score.Some?
    ensures CountPresent(rows[..i]) < |Scored(rows)|
    ensures Scored(rows)[CountPresent(rows[..i])] == Entry(rows[i].skill, rows[i].score.value)
  {
    var p := rows[..|rows| - 1];
    var r := rows[|rows| - 1];
    var es := Scored(rows);
    assert p + [r] == rows;
    if i == |rows| - 1 {
      assert rows[..i] == p;
      ScoredCount(p);
      assert es == Scored(p) + [Entry(r.skill, r.score.value)];
    } else {
      assert rows[..i] == p[..i] && rows[i] == p[i];
      ScoredAt(p, i);
      assert es[..|Scored(p)|] == Scored(p);
    }
  }

  /** The scored entries are exactly the rows with a score, in window order:
      the scored row at position `i` becomes entry number
      `CountPresent(rows[..i])`, with its score and its skill; there are
      `CountPresent(rows)` entries and their scores add up to
      `SumPresent(rows)`. */
  lemma ScoredContents(rows: seq<Row>)
    ensures |Scored(rows)| == CountPresent(rows)
    ensures Sum(Scores(Scored(rows))) == SumPresent(rows)
    ensures forall i | 0 <= i < |rows| && rows[i].score.Some? ::
      CountPresent(rows[..i]) < |Scored(rows)|
      && Scored(rows)[CountPresent(rows[..i])] == Entry(rows[i].skill, rows[i].score.value)
  {
    ScoredCount(rows);
    ScoredSum(rows);
    forall i | 0 <= i < |rows| && rows[i].score.Some?
      ensures CountPresent(rows[..i]) < |Scored(rows)|
      ensures Scored(rows)[CountPresent(rows[..i])] == Entry(rows[i].skill, rows[i].score.value)
    {
      ScoredAt(rows, i);
    }
  }

  /** `a.score for a in scored_attempts`. */
  function Scores(es: seq<Entry>): (xs: seq<int>)
    ensures |xs| == |es|
    ensures forall k | 0 <= k < |es| :: xs[k] == es[k].score
  {
    seq(|es|, k requires 0 <= k < |es| => es[k].score)
  }

  predicate HasSkill(e: Entry, id: nat)
  {
    e.skill.Some? && e.skill.value.id == id
  }

  /** Position of the first scored attempt of skill `id`, or `|es|`. */
  function FirstAt(es: seq<Entry>, id: nat): (k: nat)
    ensures k <= |es|
    ensures k < |es| ==> HasSkill(es[k], id)
    ensures forall j | 0 <= j < k :: !HasSkill(es[j], id)
  {
    if es == [] then 0
    else if HasSkill(es[0], id) then 0
    else 1 + FirstAt(es[1..], id)
  }

  lemma FirstAtUnique(es: seq<Entry>, id: nat, k: nat)
    requires k <= |es|
    requires k < |es| ==> HasSkill(es[k], id)
    requires forall j | 0 <= j < k :: !HasSkill(es[j], id)
    ensures FirstAt(es, id) == k
  {
    var f := FirstAt(es, id);
    if k < |es| {
      assert HasSkill(es[k], id);
    }
    if f < |es| {
      assert HasSkill(es[f], id);
    }
  }

  /** The scores of skill `id`, in the order met: the reference definition
      of a `by_skill` bucket. */
  function ScoresOf(es: seq<Entry>, id: nat): (xs: seq<int>)
    ensures |xs| <= |es|
    ensures xs == [] <==> forall j | 0 <= j < |es| :: !HasSkill(es[j], id)
  {
    if es == [] then []
    else
      var e := es[|es| - 1];
      ScoresOf(es[..|es| - 1], id) + (if HasSkill(e, id) then [e.score] else [])
  }

  /** The mean score of skill `id` (zero for a skill with no attempt). */
  function SkillMean(es: seq<Entry>, id: nat): real
  {
    var xs := ScoresOf(es, id);
    if xs == [] then 0.0 else Mean(xs)
  }

  /** Position of the bucket of skill `id` (the dictionary lookup), or `|bs|`. */
  function IndexOfSkill(bs: seq<Bucket>, id: nat): (k: nat)
    ensures k <= |bs|
    ensures k < |bs| ==> bs[k].skill.id == id
    ensures forall j | 0 <= j < k :: bs[j].skill.id != id
  {
    if bs == [] then 0
    else if bs[0].skill.id == id then 0
    else 1 + IndexOfSkill(bs[1..], id)
  }

  lemma IndexOfSkillUnique(bs: seq<Bucket>, id: nat, k: nat)
    requires k <= |bs|
    requires k < |bs| ==> bs[k].skill.id == id
    requires forall j | 0 <= j < k :: bs[j].skill.id != id
    ensures IndexOfSkill(bs, id) == k
  {
    var f := IndexOfSkill(bs, id);
    if k < |bs| {
      assert bs[k].skill.id == id;
    }
    if f < |bs| {
      assert bs[f].skill.id == id;
    }
  }

  /** `by_skill.setdefault(skill, []).append(score)`. */
  function Insert(bs: seq<Bucket>, s: Skill, score: int): seq<Bucket>
  {
    var k := IndexOfSkill(bs, s.id);
    if k < |bs| then bs[k := Bucket(bs[k].skill, bs[k].scores + [score])]
    else bs + [Bucket(s, [score])]
  }

  /** The `by_skill` dictionary after the loop over `es`: buckets in
      insertion order, one per skill, none empty. */
  function Group(es: seq<Entry>): (bs: seq<Bucket>)
    ensures forall i | 0 <= i < |bs| :: bs[i].scores != []
    ensures forall i, j | 0 <= i < j < |bs| :: bs[i].skill.id != bs[j].skill.id
  {
    if es == [] then []
    else
      var bs := Group(es[..|es| - 1]);
      var e := es[|es| - 1];
      if e.skill.None? then bs else Insert(bs, e.skill.value, e.score)
  }

  /** Each bucket holds exactly the scores of its skill, and a skill has a
      bucket exactly when one of its attempts is scored: every scored
      attempt lands in one bucket, its question's skill. */
  lemma {:induction false} GroupBucket(es: seq<Entry>, id: nat)
    ensures var bs := Group(es); var k := IndexOfSkill(bs, id);
      && (k < |bs| <==> ScoresOf(es, id) != [])
      && (k < |bs| ==> bs[k].scores == ScoresOf(es, id))
  {
    if es != [] {
      var p := es[..|es| - 1];
      var e := es[|es| - 1];
      GroupBucket(p, id);
      if e.skill.Some? {
        InsertBucket(Group(p), e.skill.value, e.score, id);
      }
    }
  }

  /** One `setdefault(...).append(...)`: skill `id` has a bucket afterwards
      exactly when it had one or is the skill inserted, and the score is
      appended to its bucket exactly when it is the skill inserted. */
  lemma InsertBucket(bs: seq<Bucket>, s: Skill, score: int, id: nat)
    ensures var k := IndexOfSkill(bs, id); var r := Insert(bs, s, score); var k' := IndexOfSkill(r, id);
      && (k' < |r| <==> k < |bs| || s.id == id)
      && (k' < |r| ==>
            r[k'].scores == (if k < |bs| then bs[k].scores else []) + (if s.id == id then [score] else []))
  {
    var k := IndexOfSkill(bs, id);
    var k0 := IndexOfSkill(bs, s.id);
    var r := Insert(bs, s, score);
    if k0 < |bs| {
      assert |r| == |bs| && forall j | 0 <= j < |r| :: r[j].skill == bs[j].skill;
      IndexOfSkillUnique(r, id, k);
    } else {
      assert r == bs + [Bucket(s, [score])];
      if k < |bs| {
        IndexOfSkillUnique(r, id, k);
      } else if s.id == id {
        IndexOfSkillUnique(r, id, |bs|);
      } else {
        IndexOfSkillUnique(r, id, |r|);
      }
    }
  }

  /** A scored attempt whose skill is known has its skill's bucket. */
  lemma GroupCovers(es: seq<Entry>, j: nat)
    requires j < |es| && es[j].skill.Some?
    ensures IndexOfSkill(Group(es), es[j].skill.value.id) < |Group(es)|
  {
    GroupBucket(es, es[j].skill.value.id);
  }

  /** The bucket's key is the skill of the first scored attempt of that
      skill. */
  predicate KeyedByFirst(es: seq<Entry>, b: Bucket)
  {
    FirstAt(es, b.skill.id) < |es| && es[FirstAt(es, b.skill.id)].skill == Some(b.skill)
  }

  /** One step of the `by_skill` loop leaves the earlier buckets' keys in
      place and adds at most one bucket, for a skill not seen before. */
  lemma GroupStep(es: seq<Entry>)
    requires es != []
    ensures var prev := Group(es[..|es| - 1]); var bs := Group(es);
      && |prev| <= |bs| <= |prev| + 1
      && (forall i | 0 <= i < |prev| :: bs[i].skill == prev[i].skill)
      && (|bs| == |prev| + 1 ==>
            es[|es| - 1].skill == Some(bs[|prev|].skill)
            && IndexOfSkill(prev, bs[|prev|].skill.id) == |prev|)
  {
  }

  /** The first attempt of a skill that already has a bucket lies in the
      prefix, so it stays the first one. */
  lemma FirstAtExtend(es: seq<Entry>, id: nat)
    requires es != [] && FirstAt(es[..|es| - 1], id) < |es| - 1
    ensures FirstAt(es, id) == FirstAt(es[..|es| - 1], id)
  {
    var p := es[..|es| - 1];
    var f := FirstAt(p, id);
    assert es[f] == p[f];
    forall j | 0 <= j < f
      ensures !HasSkill(es[j], id)
    {
      assert es[j] == p[j];
    }
    FirstAtUnique(es, id, f);
  }

  /** A skill met for the first time at the end of `es`. */
  lemma FirstAtNew(es: seq<Entry>, id: nat)
    requires es != [] && HasSkill(es[|es| - 1], id)
    requires ScoresOf(es[..|es| - 1], id) == []
    ensures FirstAt(es, id) == |es| - 1
  {
    var p := es[..|es| - 1];
    forall j | 0 <= j < |p|
      ensures !HasSkill(es[j], id)
    {
      assert es[j] == p[j];
    }
    FirstAtUnique(es, id, |p|);
  }

  /** Each bucket's key is the skill object of its skill's first scored
      attempt (the key `setdefault` stored). */
  lemma {:induction false} GroupKeyedByFirst(es: seq<Entry>)
    ensures forall i | 0 <= i < |Group(es)| :: KeyedByFirst(es, Group(es)[i])
  {
    if es != [] {
      var p := es[..|es| - 1];
      var prev := Group(p);
      var bs := Group(es);
      GroupKeyedByFirst(p);
      GroupStep(es);
      forall i | 0 <= i < |bs|
        ensures KeyedByFirst(es, bs[i])
      {
        if i < |prev| {
          assert KeyedByFirst(p, prev[i]);
          FirstAtExtend(es, prev[i].skill.id);
          assert es[FirstAt(p, prev[i].skill.id)] == p[FirstAt(p, prev[i].skill.id)];
        } else {
          GroupBucket(p, bs[i].skill.id);
          FirstAtNew(es, bs[i].skill.id);
        }
      }
    }
  }

  /** Buckets appear in the order their skills are first met. */
  lemma {:induction false} GroupOrder(es: seq<Entry>)
    ensures forall i, j | 0 <= i < j < |Group(es)| ::
      FirstAt(es, Group(es)[i].skill.id) < FirstAt(es, Group(es)[j].skill.id)
  {
    if es != [] {
      var p := es[..|es| - 1];
      var prev := Group(p);
      var bs := Group(es);
      GroupOrder(p);
      GroupKeyedByFirst(p);
      GroupStep(es);
      forall i | 0 <= i < |prev|
        ensures FirstAt(es, bs[i].skill.id) == FirstAt(p, prev[i].skill.id) < |p|
      {
        assert KeyedByFirst(p, prev[i]);
        FirstAtExtend(es, prev[i].skill.id);
      }
      if |bs| == |prev| + 1 {
        GroupBucket(p, bs[|prev|].skill.id);
        FirstAtNew(es, bs[|prev|].skill.id);
      }
    }
  }

  /** Total number of scores over all buckets. */
  function TotalSize(bs: seq<Bucket>): nat
  {
    if bs == [] then 0 else TotalSize(bs[..|bs| - 1]) + |bs[|bs| - 1].scores|
  }

  lemma {:induction false} TotalSizeUpdate(bs: seq<Bucket>, k: nat, b: Bucket)
    requires k < |bs|
    ensures TotalSize(bs[k := b]) == TotalSize(bs) - |bs[k].scores| + |b.scores|
  {
    var n := |bs|;
    if k == n - 1 {
      assert bs[k := b][..n - 1] == bs[..n - 1];
    } else {
      assert bs[k := b][..n - 1] == bs[..n - 1][k := b];
      TotalSizeUpdate(bs[..n - 1], k, b);
    }
  }

  /** Number of scored attempts whose skill is known. */
  function SkilledCount(es: seq<Entry>): (n: nat)
    ensures n <= |es|
    ensures (forall k | 0 <= k < |es| :: es[k].skill.Some?) ==> n == |es|
  {
    if es == [] then 0
    else SkilledCount(es[..|es| - 1]) + (if es[|es| - 1].skill.Some? then 1 else 0)
  }

  /** The bucket sizes add up to the number of scored attempts with a skill. */
  lemma {:induction false} GroupSizes(es: seq<Entry>)
    ensures TotalSize(Group(es)) == SkilledCount(es)
  {
    if es != [] {
      var p := es[..|es| - 1];
      var e := es[|es| - 1];
      var prev := Group(p);
      GroupSizes(p);
      if e.skill.Some? {
        var k0 := IndexOfSkill(prev, e.skill.value.id);
        if k0 < |prev| {
          TotalSizeUpdate(prev, k0, Bucket(prev[k0].skill, prev[k0].scores + [e.score]));
        } else {
          var bs := prev + [Bucket(e.skill.value, [e.score])];
          assert bs[..|bs| - 1] == prev;
        }
      }
    }
  }

  /** `skill_avgs`: the mean of each bucket, in bucket order. */
  function Means(bs: seq<Bucket>): (ms: seq<real>)
    requires forall i | 0 <= i < |bs| :: bs[i].scores != []
    ensures |ms| == |bs|
    ensures forall i | 0 <= i < |bs| :: ms[i] == Mean(bs[i].scores)
  {
    seq(|bs|, i requires 0 <= i < |bs| => Mean(bs[i].scores))
  }

  /** Python's `max` over an insertion-ordered dictionary: the first
      position holding the largest value. */
  function ArgMax(ms: seq<real>): (i: nat)
    requires |ms| > 0
    ensures i < |ms|
    ensures forall j | 0 <= j < |ms| :: ms[j] <= ms[i]
    ensures forall j | 0 <= j < i :: ms[j] < ms[i]
  {
    if |ms| == 1 then 0
    else
      var i := ArgMax(ms[..|ms| - 1]);
      if ms[|ms| - 1] > ms[i] then |ms| - 1 else i
  }

  /** Python's `min` over an insertion-ordered dictionary: the first
      position holding the smallest value. */
  function ArgMin(ms: seq<real>): (i: nat)
    requires |ms| > 0
    ensures i < |ms|
    ensures forall j | 0 <= j < |ms| :: ms[i] <= ms[j]
    ensures forall j | 0 <= j < i :: ms[i] < ms[j]
  {
    if |ms| == 1 then 0
    else
      var i := ArgMin(ms[..|ms| - 1]);
      if ms[|ms| - 1] < ms[i] then |ms| - 1 else i
  }

  /** The statistics block of `home` as a function of the
      joined window, newest first. */
  function Summarize(rows: seq<Row>): (st: Stats)
    ensures st.total == |rows|
    ensures st.avgScore.None? <==> forall i | 0 <= i < |rows| :: rows[i].score.None?
    ensures st.avgScore.Some? ==> CountPresent(rows) > 0 && st.avgScore.value == SumPresent(rows) as real / CountPresent(rows) as real
    ensures st.bestSkillName.None? <==> st.weakestSkillName.None?
    ensures st.bestSkillName.Some? ==> st.avgScore.Some?
  {
    ScoredContents(rows);
    var es := Scored(rows);
    if |rows| == 0 || es == [] then Stats(|rows|, None, None, None)
    else
      var avg := Sum(Scores(es)) as real / |es| as real;
      var bs := Group(es);
      if bs == [] then Stats(|rows|, Some(avg), None, None)
      else
        var ms := Means(bs);
        Stats(|rows|, Some(avg), Some(bs[ArgMax(ms)].skill.name), Some(bs[ArgMin(ms)].skill.name))
  }

  /** How `Summarize` reaches its skill names. */
  lemma SummarizeCases(rows: seq<Row>)
    ensures var st := Summarize(rows); var es := Scored(rows); var bs := Group(es);
      && (st.bestSkillName.Some? <==> |bs| > 0)
      && (|bs| > 0 ==>
            && st.bestSkillName == Some(bs[ArgMax(Means(bs))].skill.name)
            && st.weakestSkillName == Some(bs[ArgMin(Means(bs))].skill.name))
  {
    var es := Scored(rows);
    if es == [] {
      assert Group(es) == [];
    }
  }

  /** When every scored attempt's skill is known (the foreign keys hold),
      best and weakest skill exist exactly when some attempt is scored. */
  lemma SkillsExistWhenScored(rows: seq<Row>)
    requires forall i | 0 <= i < |rows| :: rows[i].skill.Some?
    ensures Summarize(rows).weakestSkillName.Some? <==> exists i | 0 <= i < |rows| :: rows[i].score.Some?
  {
    var es := Scored(rows);
    if es != [] {
      GroupCovers(es, 0);
    }
  }

  /** The skill of the scored attempt at `k` is first met there, its mean is
      at least every skill's mean, and strictly above the mean of every
      skill met before it. */
  predicate TopAt(es: seq<Entry>, k: nat)
    requires k < |es| && es[k].skill.Some?
  {
    var id := es[k].skill.value.id;
    && FirstAt(es, id) == k
    && (forall j | 0 <= j < |es| && es[j].skill.Some? :: SkillMean(es, es[j].skill.value.id) <= SkillMean(es, id))
    && (forall j | 0 <= j < k && es[j].skill.Some? :: SkillMean(es, es[j].skill.value.id) < SkillMean(es, id))
  }

  /** The skill of the scored attempt at `k` is first met there, its mean is
      at most every skill's mean, and strictly below the mean of every skill
      met before it. */
  predicate BottomAt(es: seq<Entry>, k: nat)
    requires k < |es| && es[k].skill.Some?
  {
    var id := es[k].skill.value.id;
    && FirstAt(es, id) == k
    && (forall j | 0 <= j < |es| && es[j].skill.Some? :: SkillMean(es, id) <= SkillMean(es, es[j].skill.value.id))
    && (forall j | 0 <= j < k && es[j].skill.Some? :: SkillMean(es, id) < SkillMean(es, es[j].skill.value.id))
  }

  /** A scored attempt's skill has a bucket, whose mean is the skill's mean,
      and the skill is first met no later than that attempt. */
  lemma EntryBucket(es: seq<Entry>, j: nat)
    requires j < |es| && es[j].skill.Some?
    ensures var bs := Group(es); var id := es[j].skill.value.id; var m := IndexOfSkill(bs, id);
      m < |bs| && Mean(bs[m].scores) == SkillMean(es, id) && FirstAt(es, id) <= j
  {
    GroupBucket(es, es[j].skill.value.id);
  }

  /** A bucket's mean is its skill's mean, and the skill is first met at
      the attempt whose skill object is the bucket's key. */
  lemma BucketMean(es: seq<Entry>, i: nat)
    requires i < |Group(es)|
    ensures var b := Group(es)[i];
      && Mean(b.scores) == SkillMean(es, b.skill.id)
      && FirstAt(es, b.skill.id) < |es| && es[FirstAt(es, b.skill.id)].skill == Some(b.skill)
  {
    var bs := Group(es);
    IndexOfSkillUnique(bs, bs[i].skill.id, i);
    GroupBucket(es, bs[i].skill.id);
    GroupKeyedByFirst(es);
    assert KeyedByFirst(es, bs[i]);
  }

  /** The bucket whose skill was met first comes first. */
  lemma BucketBefore(es: seq<Entry>, i: nat, m: nat)
    requires i < |Group(es)| && m < |Group(es)|
    requires FirstAt(es, Group(es)[m].skill.id) < FirstAt(es, Group(es)[i].skill.id)
    ensures m < i
  {
    GroupOrder(es);
  }

  /** The bucket `max` picks holds a skill whose mean is at least every
      other skill's and strictly above that of every skill met earlier. */
  lemma BestBucket(es: seq<Entry>)
    requires |Group(es)| > 0
    ensures var bs := Group(es); var s := bs[ArgMax(Means(bs))].skill; var k := FirstAt(es, s.id);
      k < |es| && es[k].skill == Some(s) && TopAt(es, k)
  {
    var bs := Group(es);
    var ms := Means(bs);
    var i := ArgMax(ms);
    var s := bs[i].skill;
    BucketMean(es, i);
    var k := FirstAt(es, s.id);
    forall j | 0 <= j < |es| && es[j].skill.Some?
      ensures SkillMean(es, es[j].skill.value.id) <= SkillMean(es, s.id)
      ensures j < k ==> SkillMean(es, es[j].skill.value.id) < SkillMean(es, s.id)
    {
      var id := es[j].skill.value.id;
      EntryBucket(es, j);
      var m := IndexOfSkill(bs, id);
      assert ms[m] <= ms[i];
      if j < k {
        BucketBefore(es, i, m);
        assert ms[m] < ms[i];
      }
    }
  }

  /** The bucket `min` picks holds a skill whose mean is at most every
      other skill's and strictly below that of every skill met earlier. */
  lemma WeakestBucket(es: seq<Entry>)
    requires |Group(es)| > 0
    ensures var bs := Group(es); var s := bs[ArgMin(Means(bs))].skill; var k := FirstAt(es, s.id);
      k < |es| && es[k].skill == Some(s) && BottomAt(es, k)
  {
    var bs := Group(es);
    var ms := Means(bs);
    var i := ArgMin(ms);
    var s := bs[i].skill;
    BucketMean(es, i);
    var k := FirstAt(es, s.id);
    forall j | 0 <= j < |es| && es[j].skill.Some?
      ensures SkillMean(es, s.id) <= SkillMean(es, es[j].skill.value.id)
      ensures j < k ==> SkillMean(es, s.id) < SkillMean(es, es[j].skill.value.id)
    {
      var id := es[j].skill.value.id;
      EntryBucket(es, j);
      var m := IndexOfSkill(bs, id);
      assert ms[i] <= ms[m];
      if j < k {
        BucketBefore(es, i, m);
        assert ms[i] < ms[m];
      }
    }
  }

  /** The best skill's mean is at least every other skill's mean, and a
      skill met earlier (newest first) has a strictly smaller mean: on a
      tie, the first skill met wins. */
  lemma BestSkill(rows: seq<Row>)
    requires Summarize(rows).bestSkillName.Some?
    ensures var es := Scored(rows);
      exists k | 0 <= k < |es| && es[k].skill.Some? ::
        Summarize(rows).bestSkillName == Some(es[k].skill.value.name) && TopAt(es, k)
  {
    var es := Scored(rows);
    var bs := Group(es);
    SummarizeCases(rows);
    BestBucket(es);
    var s := bs[ArgMax(Means(bs))].skill;
    var k := FirstAt(es, s.id);
    assert es[k].skill.value == s;
    assert Summarize(rows).bestSkillName == Some(s.name);
  }

  /** The weakest skill's mean is at most every other skill's mean, and a
      skill met earlier (newest first) has a strictly larger mean: on a
      tie, the first skill met wins. */
  lemma WeakestSkill(rows: seq<Row>)
    requires Summarize(rows).weakestSkillName.Some?
    ensures var es := Scored(rows);
      exists k | 0 <= k < |es| && es[k].skill.Some? ::
        Summarize(rows).weakestSkillName == Some(es[k].skill.value.name) && BottomAt(es, k)
  {
    var es := Scored(rows);
    var bs := Group(es);
    SummarizeCases(rows);
    WeakestBucket(es);
    var s := bs[ArgMin(Means(bs))].skill;
    var k := FirstAt(es, s.id);
    assert es[k].skill.value == s;
    assert Summarize(rows).weakestSkillName == Some(s.name);
  }

  /** With a single skill among the scored attempts, best and weakest are
      the same skill. */
  lemma SingleSkill(rows: seq<Row>, id: nat)
    requires forall k | 0 <= k < |Scored(rows)| :: HasSkill(Scored(rows)[k], id)
    ensures Summarize(rows).bestSkillName == Summarize(rows).weakestSkillName
  {
    var es := Scored(rows);
    var bs := Group(es);
    forall i | 0 <= i < |bs|
      ensures bs[i].skill.id == id
    {
      BucketMean(es, i);
      assert HasSkill(es[FirstAt(es, bs[i].skill.id)], id);
    }
    SummarizeCases(rows);
    if |bs| > 0 {
      var ms := Means(bs);
      assert ArgMax(ms) == ArgMin(ms);
    }
  }

  /** Every scored attempt with a known skill is in exactly one bucket, so
      under the foreign keys the bucket sizes add up to the number of
      scored attempts. */
  lemma BucketSizesAddUp(rows: seq<Row>)
    requires forall i | 0 <= i < |rows| :: rows[i].skill.Some?
    ensures TotalSize(Group(Scored(rows))) == |Scored(rows)|
  {
    GroupSizes(Scored(rows));
  }

  /** The `by_skill` dictionary of `home`, filled one scored
      attempt at a time with `setdefault(skill, []).append(score)`. */
  method GroupBySkill(scored: seq<Entry>) returns (bySkill: seq<Bucket>)
    ensures bySkill == Group(scored)
  {
    bySkill := [];
    var i := 0;
    while i < |scored|
      invariant 0 <= i <= |scored|
      invariant bySkill == Group(scored[..i])
    {
      var e := scored[i];
      assert scored[..i + 1][..i] == scored[..i];
      if e.skill.Some? {
        var k := IndexOfSkill(bySkill, e.skill.value.id);
        if k < |bySkill| {
          bySkill := bySkill[k := Bucket(bySkill[k].skill, bySkill[k].scores + [e.score])];
        } else {
          bySkill := bySkill + [Bucket(e.skill.value, [e.score])];
        }
      }
      i := i + 1;
    }
    assert scored[..|scored|] == scored;
  }

  /** The statistics of `home`, with the `by_skill` dictionary
      filled by a loop. */
  method ComputeStats(rows: seq<Row>) returns (st: Stats)
    ensures st == Summarize(rows)
  {
    var total := |rows|;
    var avg: Option<real> := None;
    var best: Option<string> := None;
    var weakest: Option<string> := None;
    if total > 0 {
      var scored := Scored(rows);
      if |scored| > 0 {
        avg := Some(Sum(Scores(scored)) as real / |scored| as real);
        var bySkill := GroupBySkill(scored);
        if |bySkill| > 0 {
          var means := Means(bySkill);
          best := Some(bySkill[ArgMax(means)].skill.name);
          weakest := Some(bySkill[ArgMin(means)].skill.name);
        }
      }
    }
    st := Stats(total, avg, best, weakest);
  }

  /** `Skill.objects.filter(name=n).first()`: the first skill, in primary-key
      order, with that name. */
  function FirstSkillNamed(skills: seq<Skill>, name: string): (r: Option<Skill>)
    ensures r.None? <==> forall s | s in skills :: s.name != name
    ensures r.Some? ==> r.value in skills && r.value.name == name
    ensures r.Some? && SkillsInPkOrder(skills) ==>
      forall s | s in skills && s.name == name :: r.value.id <= s.id
  {
    if skills == [] then None
    else if skills[0].name == name then Some(skills[0])
    else FirstSkillNamed(skills[1..], name)
  }

  /** `Question.objects.filter(skill=s).order_by("pk").first()`. */
  function FirstQuestionOf(questions: seq<Question>, skill: nat): (r: Option<Question>)
    ensures r.None? <==> forall q | q in questions :: q.skill != skill
    ensures r.Some? ==> r.value in questions && r.value.skill == skill
    ensures r.Some? && QuestionsInPkOrder(questions) ==>
      forall q | q in questions && q.skill == skill :: r.value.id <= q.id
  {
    if questions == [] then None
    else if questions[0].skill == skill then Some(questions[0])
    else FirstQuestionOf(questions[1..], skill)
  }

  /** The recommendation of `home`: when the weakest skill's name is a
      non-empty string, the lowest-key skill carrying that name, and that
      skill's lowest-key question. */
  function Recommend(weakestName: Option<string>, skills: seq<Skill>, questions: seq<Question>)
    : (r: (Option<Skill>, Option<Question>))
    ensures weakestName.None? || weakestName.value == "" ==> r.0.None?
    ensures weakestName.Some? && weakestName.value != "" && (exists s | s in skills :: s.name == weakestName.value)
      ==> r.0.Some?
    ensures r.1.Some? ==> r.0.Some?
    ensures r.0.Some? ==> weakestName == Some(r.0.value.name) && r.0.value in skills
    ensures r.0.Some? && SkillsInPkOrder(skills) ==>
      forall s | s in skills && s.name == r.0.value.name :: r.0.value.id <= s.id
    ensures r.0.Some? ==> (r.1.None? <==> forall q | q in questions :: q.skill != r.0.value.id)
    ensures r.1.Some? ==> r.1.value in questions && r.1.value.skill == r.0.value.id
    ensures r.1.Some? && QuestionsInPkOrder(questions) ==>
      forall q | q in questions && q.skill == r.0.value.id :: r.1.value.id <= q.id
  {
    if weakestName.None? || weakestName.value == "" then (None, None)
    else
      match FirstSkillNamed(skills, weakestName.value)
      case None => (None, None)
      case Some(s) => (Some(s), FirstQuestionOf(questions, s.id))
  }

  lemma ExampleScored(a: Skill, b: Skill)
    ensures Scored([Row(Some(90), Some(a)), Row(Some(60), Some(b))]) == [Entry(Some(a), 90), Entry(Some(b), 60)]
  {
    var rows := [Row(Some(90), Some(a)), Row(Some(60), Some(b))];
    assert rows[..1] == [Row(Some(90), Some(a))];
    assert rows[..1][..0] == [];
    assert Scored(rows[..1][..0]) == [];
    assert Scored(rows[..1]) == [Entry(Some(a), 90)];
  }

  lemma ExampleGroup(a: Skill, b: Skill)
    requires a.id != b.id
    ensures Group([Entry(Some(a), 90), Entry(Some(b), 60)]) == [Bucket(a, [90]), Bucket(b, [60])]
  {
    var es := [Entry(Some(a), 90), Entry(Some(b), 60)];
    assert es[..1] == [Entry(Some(a), 90)];
    assert es[..1][..0] == [];
    assert Group(es[..1][..0]) == [];
    assert IndexOfSkill([], a.id) == 0;
    var bs0 := Group(es[..1]);
    assert bs0 == [Bucket(a, [90])];
    assert IndexOfSkill(bs0, b.id) == 1;
  }

  lemma ExampleExtremes(a: Skill, b: Skill)
    ensures var ms := Means([Bucket(a, [90]), Bucket(b, [60])]);
      ArgMin(ms) == 1 && ArgMax(ms) == 0
  {
    var bs := [Bucket(a, [90]), Bucket(b, [60])];
    assert Sum([90]) == 90 && Sum([60]) == 60;
    var ms := Means(bs);
    assert ms == [90.0, 60.0];
    assert ms[..1] == [90.0];
  }

  /** Skills A (score 90) and B (score 60), A met first: B is the weakest,
      A the best, and the average is 75. */
  lemma WeakestExample()
    ensures var a := Skill(1, "A"); var b := Skill(2, "B");
      var st := Summarize([Row(Some(90), Some(a)), Row(Some(60), Some(b))]);
      st.weakestSkillName == Some("B") && st.bestSkillName == Some("A") && st.avgScore == Some(75.0)
  {
    var a := Skill(1, "A");
    var b := Skill(2, "B");
    var rows := [Row(Some(90), Some(a)), Row(Some(60), Some(b))];
    var es := [Entry(Some(a), 90), Entry(Some(b), 60)];
    ExampleScored(a, b);
    ExampleGroup(a, b);
    ExampleExtremes(a, b);
    SummarizeCases(rows);
    assert Scores(es) == [90, 60];
    assert [90, 60][..1] == [90];
    assert Sum([90, 60]) == 150;
  }
}
