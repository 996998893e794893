/** One request to the question page (core/views.py, `question_detail`): a
    GET shows the question; a POST either asks the feedback service about
    the user's notes and shows the page again, or records the score given
    (if it is an integer) and moves on to the next question of the same
    skill. */
module Session {
  import opened Basics
  import opened PyText
  import opened Models
  import opened Home

  /** The view only asks whether the request is a POST; `OtherMethod`
      stands for GET and every other method, which all show the page. */
  datatype HttpMethod = OtherMethod | Post

  /** The parts of the request the view reads: the method and the posted
      `action`, `notes` and `score` fields (absent fields are `None`). */
  datatype Request = Request(verb: HttpMethod, action: Option<string>, notes: Option<string>, score: Option<string>)

  /** The feedback service's configuration: whether its client library is
      installed, and the `OPENAI_API_KEY` environment variable. */
  datatype Env = Env(clientInstalled: bool, apiKey: Option<string>)

  /** What the view sends to the feedback service. */
  datatype GatewayRequest = GatewayRequest(questionText: string, skillName: string, difficulty: string, notes: string)

  /** The service's answer: the reply's content (which may be null), or
      the exception it raised, as text. */
  datatype GatewayResult = Completed(content: Option<string>) | Failed(cause: string)

  /** What the view returns. */
  datatype Response =
    | NotFound
    | RenderPage(question: Question, next: Question, feedback: Option<string>)
    | RedirectQuestion(pk: nat)
    | RedirectHome

  /** A response and the score of the Attempt the request writes, if any. */
  datatype Outcome = Outcome(response: Response, recorded: Option<int>)

  const NotConfiguredMessage: string :=
    "AI feedback is not configured yet. Set the OPENAI_API_KEY environment variable to enable this feature."
  const EmptyNotesMessage: string :=
    "Please type your answer in the notes box before asking for AI feedback."
  const FailurePrefix: string := "Sorry, AI feedback failed: "

  /** The AI branch's configuration test, `not OpenAI or not api_key`, negated. */
  predicate Configured(env: Env)
  {
    env.clientInstalled && env.apiKey.Some? && env.apiKey.value != ""
  }

  /** The posted action, `request.POST.get("action") or "next"`. */
  function ActionOf(req: Request): string
  {
    if req.action.None? || req.action.value == "" then "next" else req.action.value
  }

  /** The posted score: `int(score_raw)` when the field is present; a
      `ValueError` gives no score. */
  function ParseScore(raw: Option<string>): Option<int>
  {
    match raw
    case None => None
    case Some(s) => ParseInt(s)
  }

  /** Every integer the form posts as text is recorded as that integer. */
  lemma ParseScoreValid(n: int)
    ensures ParseScore(Some(IntToString(n))) == Some(n)
  {
    ParseIntToString(n);
  }

  /** A missing score, or text with no digit in it, records nothing. */
  lemma ParseScoreInvalid(raw: Option<string>)
    requires raw.Some? ==> forall k | 0 <= k < |raw.value| :: !IsDigit(raw.value[k])
    ensures ParseScore(raw) == None
  {
    if raw.Some? {
      ParseIntNeedsDigit(raw.value);
    }
  }

  /** `field or ""` for a posted text field. */
  function OrEmpty(field: Option<string>): (r: string)
    ensures field.Some? ==> r == field.value
    ensures field.None? ==> r == ""
  {
    if field.Some? then field.value else ""
  }

  /** The skill name sent to the model: the skill's name, or "General" for a question without one. */
  function SkillNameOf(skills: seq<Skill>, q: Question): string
  {
    match FindSkill(skills, q.skill)
    case None => "General"
    case Some(s) => s.name
  }

  /** The feedback text of the `ai` branch. */
  function AiFeedback(skills: seq<Skill>, q: Question, notesField: Option<string>, env: Env,
                      gateway: GatewayRequest -> GatewayResult): (fb: Option<string>)
    ensures !Configured(env) ==> fb == Some(NotConfiguredMessage)
    ensures Configured(env) && Strip(OrEmpty(notesField)) == [] ==> fb == Some(EmptyNotesMessage)
  {
    var notes := Strip(OrEmpty(notesField));
    if !Configured(env) then Some(NotConfiguredMessage)
    else if notes == "" then Some(EmptyNotesMessage)
    else
      match gateway(GatewayRequest(q.text, SkillNameOf(skills, q), q.difficulty, notes))
      case Completed(content) => content
      case Failed(cause) => Some(FailurePrefix + cause)
  }

  /** The service is asked only when it is configured and the notes are not
      blank: otherwise the answer does not depend on it. */
  lemma AiGatewayConsultedOnlyWhenReady(skills: seq<Skill>, q: Question, notesField: Option<string>, env: Env,
                                        g1: GatewayRequest -> GatewayResult, g2: GatewayRequest -> GatewayResult)
    requires !Configured(env) || forall k | 0 <= k < |OrEmpty(notesField)| :: IsSpace(OrEmpty(notesField)[k])
    ensures AiFeedback(skills, q, notesField, env, g1) == AiFeedback(skills, q, notesField, env, g2)
  {
  }

  /** When asked, the service gets the question, its skill's name, its
      difficulty and the stripped notes; its reply is shown unchanged and
      its failure is shown with the cause at the end of a fixed prefix. */
  lemma AiGatewayPassThrough(skills: seq<Skill>, q: Question, notesField: Option<string>, env: Env,
                             gateway: GatewayRequest -> GatewayResult)
    requires Configured(env) && Strip(OrEmpty(notesField)) != []
    ensures var req := GatewayRequest(q.text, SkillNameOf(skills, q), q.difficulty, Strip(OrEmpty(notesField)));
      var fb := AiFeedback(skills, q, notesField, env, gateway);
      && (gateway(req).Completed? ==> fb == gateway(req).content)
      && (gateway(req).Failed? ==>
            fb.Some? && fb.value[..|FailurePrefix|] == FailurePrefix && fb.value[|FailurePrefix|..] == gateway(req).cause)
  {
  }

  /** `.filter(pk__gt=pk)`. */
  function After(qs: seq<Question>, pk: nat): (r: seq<Question>)
    ensures forall q | q in r :: q in qs && q.id > pk
    ensures forall q | q in qs && q.id > pk :: q in r
  {
    if qs == [] then []
    else
      var rest := After(qs[1..], pk);
      if qs[0].id > pk then [qs[0]] + rest else rest
  }

  /** The head of a non-empty list in key order has the smallest key. */
  lemma HeadIsLowest(qs: seq<Question>)
    requires qs != [] && QuestionsInPkOrder(qs)
    ensures forall x | x in qs :: qs[0].id <= x.id
  {
    forall x | x in qs
      ensures qs[0].id <= x.id
    {
      var k :| 0 <= k < |qs| && qs[k] == x;
    }
  }

  /** The `next` branch's target: the next question of the same skill, wrapping around to
      the first one. */
  function NextQuestion(questions: seq<Question>, q: Question): (r: Question)
    requires q in questions
    ensures r in questions && r.skill == q.skill
  {
    var same := OfSkill(questions, q.skill);
    var after := After(same, q.id);
    assert q in same;
    if after != [] then after[0] else same[0]
  }

  /** Filtering keeps key order. */
  lemma {:induction false} AfterInPkOrder(qs: seq<Question>, pk: nat)
    requires QuestionsInPkOrder(qs)
    ensures QuestionsInPkOrder(After(qs, pk))
  {
    if qs != [] {
      PkOrderTail(qs);
      AfterInPkOrder(qs[1..], pk);
      if qs[0].id > pk {
        PkOrderCons(qs[0], After(qs[1..], pk));
      }
    }
  }

  /** The next question is the lowest-key question of the same skill with a
      key above the current one; when there is none, it is the lowest-key
      question of the skill, and no question of the skill has a higher key
      than the current one. */
  lemma NextQuestionSpec(questions: seq<Question>, q: Question)
    requires QuestionsInPkOrder(questions) && q in questions
    ensures var r := NextQuestion(questions, q);
      && (r.id > q.id ==>
            forall x | x in questions && x.skill == q.skill && x.id > q.id :: r.id <= x.id)
      && (r.id <= q.id ==>
            forall x | x in questions && x.skill == q.skill :: r.id <= x.id <= q.id)
  {
    var same := OfSkill(questions, q.skill);
    var after := After(same, q.id);
    OfSkillInPkOrder(questions, q.skill);
    AfterInPkOrder(same, q.id);
    assert q in same;
    if after != [] {
      HeadIsLowest(after);
      assert after[0] in after;
    } else {
      HeadIsLowest(same);
    }
  }

  /** The next question is the current one exactly when it is the only
      question of its skill. */
  lemma NextIsSelf(questions: seq<Question>, q: Question)
    requires QuestionsInPkOrder(questions) && q in questions
    ensures NextQuestion(questions, q) == q <==>
      forall x | x in questions && x.skill == q.skill :: x == q
  {
    var r := NextQuestion(questions, q);
    NextQuestionSpec(questions, q);
    var i :| 0 <= i < |questions| && questions[i] == q;
    forall x | x in questions && x.skill == q.skill && x.id == q.id
      ensures x == q
    {
      var j :| 0 <= j < |questions| && questions[j] == x;
      assert i == j;
    }
    if r != q {
      assert r.id != q.id;
    }
  }

  /** Skill with questions 1, 2 and 3: after 3 comes 1 again. */
  lemma NextWrapsExample()
    ensures var qs := [Question(1, "a", 7, "easy"), Question(2, "b", 7, "easy"), Question(3, "c", 7, "easy")];
      NextQuestion(qs, qs[2]) == qs[0] && NextQuestion(qs, qs[0]) == qs[1]
  {
    var qs := [Question(1, "a", 7, "easy"), Question(2, "b", 7, "easy"), Question(3, "c", 7, "easy")];
    assert qs[1..][1..][1..] == [];
    assert OfSkill(qs, 7) == qs;
    assert After(qs[1..][1..], 3) == [];
    assert After(qs, 3) == [];
    assert After(qs[1..][1..], 1) == [qs[2]];
    assert After(qs, 1) == [qs[1], qs[2]];
  }

  /** The whole request as a function of the tables, the configuration and
      the service; the `Attempt` row is `recorded`. */
  function Step(questions: seq<Question>, skills: seq<Skill>, pk: nat, req: Request, env: Env,
                gateway: GatewayRequest -> GatewayResult): (o: Outcome)
    ensures FindQuestion(questions, pk).None? ==> o == Outcome(NotFound, None)
  {
    match FindQuestion(questions, pk)
    case None => Outcome(NotFound, None)
    case Some(q) =>
      var next := NextQuestion(questions, q);
      if req.verb == OtherMethod then Outcome(RenderPage(q, next, None), None)
      else if ActionOf(req) == "ai" then
        Outcome(RenderPage(q, next, AiFeedback(skills, q, req.notes, env, gateway)), None)
      else
        Outcome(if next.id != q.id then RedirectQuestion(next.id) else RedirectHome, ParseScore(req.score))
  }

  /** Only a POST whose action is not `ai` writes an Attempt. */
  lemma RecordsOnlyOnAdvance(questions: seq<Question>, skills: seq<Skill>, pk: nat, req: Request, env: Env,
                             gateway: GatewayRequest -> GatewayResult)
    ensures Step(questions, skills, pk, req, env, gateway).recorded.Some? ==>
      FindQuestion(questions, pk).Some? && req.verb == Post && ActionOf(req) != "ai"
  {
    if FindQuestion(questions, pk).Some? && req.verb == Post && ActionOf(req) != "ai" {
    } else {
      assert Step(questions, skills, pk, req, env, gateway).recorded == None;
    }
  }

  /** The `ai` action writes nothing and shows the same question again; an
      unconfigured service is reported before blank notes are. */
  lemma AiBranch(questions: seq<Question>, skills: seq<Skill>, pk: nat, req: Request, env: Env,
                 gateway: GatewayRequest -> GatewayResult)
    requires FindQuestion(questions, pk).Some? && req.verb == Post && req.action == Some("ai")
    ensures var o := Step(questions, skills, pk, req, env, gateway); var q := FindQuestion(questions, pk).value;
      && o.recorded == None
      && o.response.RenderPage? && o.response.question == q
      && (!Configured(env) ==> o.response.feedback == Some(NotConfiguredMessage))
      && (Configured(env) && Strip(OrEmpty(req.notes)) == [] ==> o.response.feedback == Some(EmptyNotesMessage))
  {
  }

  /** Any other action, a missing one or an empty one included, advances:
      it records the parsed score, if any, and redirects to the next
      question, or home when the skill has no other question. */
  lemma AdvanceBranch(questions: seq<Question>, skills: seq<Skill>, pk: nat, req: Request, env: Env,
                      gateway: GatewayRequest -> GatewayResult)
    requires QuestionsInPkOrder(questions)
    requires FindQuestion(questions, pk).Some? && req.verb == Post && ActionOf(req) != "ai"
    ensures var o := Step(questions, skills, pk, req, env, gateway); var q := FindQuestion(questions, pk).value;
      && o.recorded == ParseScore(req.score)
      && (o.response == RedirectHome <==> forall x | x in questions && x.skill == q.skill :: x == q)
      && (o.response != RedirectHome ==>
            o.response.RedirectQuestion? && o.response.pk == NextQuestion(questions, q).id)
  {
    var q := FindQuestion(questions, pk).value;
    NextIsSelf(questions, q);
    var r := NextQuestion(questions, q);
    var i :| 0 <= i < |questions| && questions[i] == q;
    var j :| 0 <= j < |questions| && questions[j] == r;
    assert r.id == q.id ==> i == j;
  }

  /** Posting without an action advances. */
  lemma DefaultActionIsNext(req: Request)
    requires req.action.None? || req.action == Some("")
    ensures ActionOf(req) == "next"
  {
  }

  /** A request that is not a POST writes nothing and shows the page
      without feedback. */
  lemma NonPostRendersPage(questions: seq<Question>, skills: seq<Skill>, pk: nat, req: Request, env: Env,
                           gateway: GatewayRequest -> GatewayResult)
    requires FindQuestion(questions, pk).Some? && req.verb == OtherMethod
    ensures var o := Step(questions, skills, pk, req, env, gateway);
      o.recorded == None && o.response.RenderPage? && o.response.feedback == None
  {
  }

  /** `question_detail` against the attempt table: the response of `Step`,
      and exactly the one Attempt it records (for user `user`, at time
      `now`) appended, or nothing. */
  method QuestionDetail(store: AttemptStore, questions: seq<Question>, skills: seq<Skill>, pk: nat,
                        req: Request, env: Env, gateway: GatewayRequest -> GatewayResult,
                        user: nat, now: int) returns (resp: Response)
    requires store.Valid()
    requires forall i | 0 <= i < |store.rows| :: store.rows[i].createdAt <= now
    modifies store
    ensures store.Valid()
    ensures resp == Step(questions, skills, pk, req, env, gateway).response
    ensures var rec := Step(questions, skills, pk, req, env, gateway).recorded;
      store.rows == old(store.rows) +
        (if rec.Some? then [Attempt(old(store.nextId), user, pk, Some(rec.value), now)] else [])
  {
    var found := FindQuestion(questions, pk);
    if found.None? {
      return NotFound;
    }
    var question := found.value;
    var next := NextQuestion(questions, question);
    var feedback: Option<string> := None;
    if req.verb == Post {
      var action := ActionOf(req);
      if action == "ai" {
        feedback := AiFeedback(skills, question, req.notes, env, gateway);
      } else {
        var score := ParseScore(req.score);
        if score.Some? {
          var _ := store.Create(user, question.id, score.value, now);
        }
        if next.id != question.id {
          return RedirectQuestion(next.id);
        }
        return RedirectHome;
      }
    }
    resp := RenderPage(question, next, feedback);
  }
}
