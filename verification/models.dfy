/** The three tables of the practice application (core/models.py): skills,
    questions and users' scored attempts. A table is a sequence of records
    in primary-key order; the attempt table, which the session view appends
    to, is an object. */
module Models {
  import opened Basics

  /** A skill area; `name` is not unique. */
  datatype Skill = Skill(id: nat, name: string)

  /** A practice question; `skill` is the primary key of its Skill (a
      non-null foreign key, so every question has exactly one skill). */
  datatype Question = Question(id: nat, text: string, skill: nat, difficulty: string)

  /** One submission of a user for a question. The column is non-null, but
      the views test it against `None`, so the record keeps that possibility;
      the table invariant below rules it out for stored rows. */
  datatype Attempt = Attempt(id: nat, user: nat, question: nat, score: Option<int>, createdAt: int)

  /** `Skill.__str__`. */
  function SkillLabel(s: Skill): (r: string)
    ensures r == s.name
  {
    s.name
  }

  /** `Question.__str__`: the question text cut to at most 50 characters. */
  function QuestionLabel(q: Question): (r: string)
    ensures |r| == if |q.text| <= 50 then |q.text| else 50
    ensures forall k | 0 <= k < |r| :: r[k] == q.text[k]
    ensures |q.text| <= 50 ==> r == q.text
  {
    Take(q.text, 50)
  }

  /** A table in primary-key order: keys strictly ascending. */
  predicate SkillsInPkOrder(skills: seq<Skill>)
  {
    forall i, j | 0 <= i < j < |skills| :: skills[i].id < skills[j].id
  }

  predicate QuestionsInPkOrder(questions: seq<Question>)
  {
    forall i, j | 0 <= i < j < |questions| :: questions[i].id < questions[j].id
  }

  /** Dropping the head of a table in key order leaves one in key order,
      every key of which is above the head's. */
  lemma PkOrderTail(questions: seq<Question>)
    requires questions != [] && QuestionsInPkOrder(questions)
    ensures QuestionsInPkOrder(questions[1..])
    ensures forall q | q in questions[1..] :: questions[0].id < q.id
  {
    var t := questions[1..];
    assert forall k | 0 <= k < |t| :: t[k] == questions[k + 1];
  }

  /** A question with a key below every key of a table in key order can go
      first. */
  lemma PkOrderCons(x: Question, rest: seq<Question>)
    requires QuestionsInPkOrder(rest)
    requires forall q | q in rest :: x.id < q.id
    ensures QuestionsInPkOrder([x] + rest)
  {
    var r := [x] + rest;
    forall i, j | 0 <= i < j < |r|
      ensures r[i].id < r[j].id
    {
      assert r[j] == rest[j - 1];
      if i == 0 {
        assert r[j] in rest;
      } else {
        assert r[i] == rest[i - 1];
      }
    }
  }

  /** Rows appended in creation order: keys strictly ascending and creation
      timestamps never decreasing. */
  predicate Chronological(rows: seq<Attempt>)
  {
    forall i, j | 0 <= i < j < |rows| :: rows[i].id < rows[j].id && rows[i].createdAt <= rows[j].createdAt
  }

  /** The non-null `score` column. */
  predicate AllScored(rows: seq<Attempt>)
  {
    forall i | 0 <= i < |rows| :: rows[i].score.Some?
  }

  /** Foreign keys of questions resolve. */
  predicate QuestionSkillsExist(skills: seq<Skill>, questions: seq<Question>)
  {
    forall i | 0 <= i < |questions| :: FindSkill(skills, questions[i].skill).Some?
  }

  /** Foreign keys of attempts resolve. */
  predicate AttemptQuestionsExist(questions: seq<Question>, rows: seq<Attempt>)
  {
    forall i | 0 <= i < |rows| :: FindQuestion(questions, rows[i].question).Some?
  }

  /** Lookup by primary key (`Skill.objects.filter(pk=id).first()`). */
  function FindSkill(skills: seq<Skill>, id: int): (r: Option<Skill>)
    ensures r.Some? ==> r.value in skills && r.value.id == id
    ensures r.None? ==> forall s | s in skills :: s.id != id
  {
    if skills == [] then None
    else if skills[0].id == id then Some(skills[0])
    else FindSkill(skills[1..], id)
  }

  /** Lookup by primary key (`get_object_or_404(Question, pk=id)`). */
  function FindQuestion(questions: seq<Question>, id: int): (r: Option<Question>)
    ensures r.Some? ==> r.value in questions && r.value.id == id
    ensures r.None? ==> forall q | q in questions :: q.id != id
  {
    if questions == [] then None
    else if questions[0].id == id then Some(questions[0])
    else FindQuestion(questions[1..], id)
  }

  /** The attempt table. Rows are only ever appended. */
  class AttemptStore {
    var rows: seq<Attempt>
    var nextId: nat

    ghost predicate Valid()
      reads this
    {
      && Chronological(rows)
      && AllScored(rows)
      && (forall i | 0 <= i < |rows| :: rows[i].id < nextId)
    }

    constructor ()
      ensures Valid() && rows == []
    {
      rows := [];
      nextId := 1;
    }

    /** `Attempt.objects.create(user=..., question=..., score=...)`: the row
        gets the next primary key and the creation time `now` (the clock is
        a parameter and is assumed not to run backwards). */
    method Create(user: nat, question: nat, score: int, now: int) returns (a: Attempt)
      requires Valid()
      requires forall i | 0 <= i < |rows| :: rows[i].createdAt <= now
      modifies this
      ensures Valid()
      ensures a == Attempt(old(nextId), user, question, Some(score), now)
      ensures rows == old(rows) + [a]
      ensures nextId == old(nextId) + 1
    {
      a := Attempt(nextId, user, question, Some(score), now);
      rows := rows + [a];
      nextId := nextId + 1;
    }
  }
}
