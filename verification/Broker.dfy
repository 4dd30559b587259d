// Approvals and questions the agent asks, answered once from the browser or declined.
module Broker {
  import opened Common
  import opened Numerals

  datatype Method = CommandExecution | FileChange | Permissions | UserInput | ExecCommand | ApplyPatch | Unknown

  datatype Response =
    | Decision(decision: string)
    | Grant(permissions: map<string, string>, scope: string)
    | Answers(answers: map<string, seq<string>>)
    | Empty

  datatype RawId = NoId | TextId(text: string) | OtherId(rendered: string)
  datatype RawQuestion = Malformed | Question(id: RawId, text: string)

  datatype Params = Params(thread: string, available: Option<set<string>>, permissions: map<string, string>, questions: seq<RawQuestion>)

  datatype Choice = Choice(id: string, response: Response)
  datatype Content = Choices(choices: seq<Choice>) | Questions(ids: seq<string>)
  datatype Pending = Pending(id: string, session: string, kind: Method, generation: nat, content: Content)

  /** A submitted answer is a list of values, some of which may not be text. */
  type Submission = map<string, seq<Option<string>>>

  // ---------------------------------------------------------------- what may be answered

  /** The answer that refuses a request. */
  function Declined(m: Method, params: Params): Response {
    match m
    case CommandExecution => Decision("decline")
    case FileChange => Decision("decline")
    case Permissions => Grant(map[], "turn")
    case UserInput => Answers(map id | id in TextIds(params.questions) :: [])
    case ExecCommand => Decision("denied")
    case ApplyPatch => Decision("denied")
    case Unknown => Empty
  }

  /** A response that accepts, grants or tells the agent something. */
  predicate Concedes(r: Response) {
    match r
    case Decision(decision) => decision !in {"cancel", "decline", "denied"}
    case Grant(permissions, _) => permissions != map[]
    case Answers(answers) => exists id :: id in answers && answers[id] != []
    case Empty => false
  }

  /** Declining concedes nothing, in the vocabulary of the request, with an empty answer to each question with a textual id. */
  lemma DeclinedRefuses(m: Method, params: Params)
    ensures !Concedes(Declined(m, params))
    ensures m == CommandExecution || m == FileChange ==> Declined(m, params) == Decision("decline")
    ensures Legacy(m) ==> Declined(m, params) == Decision("denied")
    ensures m == Permissions <==> Declined(m, params).Grant?
    ensures m == UserInput <==> Declined(m, params).Answers?
    ensures m == UserInput ==>
      forall id :: id in Declined(m, params).answers <==> exists text :: Question(TextId(id), text) in params.questions
  {
    if m == UserInput {
      forall id ensures id in Declined(m, params).answers <==> exists text :: Question(TextId(id), text) in params.questions {
        if id in Declined(m, params).answers {
          var q :| q in params.questions && q.Question? && q.id.TextId? && q.id.text == id;
          assert q == Question(TextId(id), q.text);
        }
      }
    }
  }

  function TextIds(questions: seq<RawQuestion>): set<string> {
    set q | q in questions && q.Question? && q.id.TextId? :: q.id.text
  }

  function AskedId(q: RawQuestion): string {
    if q.Malformed? || q.text == "" then ""
    else match q.id
      case NoId => ""
      case TextId(s) => s
      case OtherId(s) => s
  }

  /** The ids of the questions that can be asked; the others are passed over. */
  function Asked(questions: seq<RawQuestion>): seq<string> {
    if questions == [] then []
    else (if AskedId(questions[0]) == "" then [] else [AskedId(questions[0])]) + Asked(questions[1..])
  }

  const APPROVALS := ["accept", "acceptForSession", "decline", "cancel"]

  function Allowed(allowed: set<string>): seq<string> {
    Filter(APPROVALS, d => d in allowed)
  }

  /** The responses a method offers, in the order of its buttons. */
  function Offers(m: Method, params: Params): seq<Response> {
    match m
    case CommandExecution =>
      var allowed := Allowed(if params.available.Some? then params.available.value else set d | d in APPROVALS);
      if allowed == [] then [Decision("decline")] else seq(|allowed|, i requires 0 <= i < |allowed| => Decision(allowed[i]))
    case FileChange => [Decision("accept"), Decision("acceptForSession"), Decision("decline"), Decision("cancel")]
    case Permissions => [Grant(params.permissions, "turn"), Grant(params.permissions, "session"), Grant(map[], "turn")]
    case ExecCommand => [Decision("approved"), Decision("denied")]
    case ApplyPatch => [Decision("approved"), Decision("denied")]
    case _ => []
  }

  function WithIds(offers: seq<Response>, token: nat -> string): seq<Choice> {
    seq(|offers|, i requires 0 <= i < |offers| => Choice(token(i), offers[i]))
  }

  predicate Legacy(m: Method) {
    m == ExecCommand || m == ApplyPatch
  }

  /** Whether a request opens an interaction at all. */
  predicate Opens(m: Method, params: Params) {
    (params.thread != "" || Legacy(m)) && m != Unknown && (m == UserInput ==> Asked(params.questions) != [])
  }

  function Build(m: Method, params: Params, token: nat -> string): Content {
    if m == UserInput then Questions(Asked(params.questions)) else Choices(WithIds(Offers(m, params), token))
  }

  predicate Refuses(r: Response) {
    r.Decision? && r.decision in {"cancel", "decline", "denied"}
  }

  /** Whether the browser's cancel can be carried out. */
  predicate Cancellable(content: Content) {
    content.Questions? || exists i :: 0 <= i < |content.choices| && Refuses(content.choices[i].response)
  }

  lemma AllowedMembers(allowed: set<string>)
    ensures forall d :: d in Allowed(allowed) <==> d in APPROVALS && d in allowed
  {
    FilterMembers(APPROVALS, d => d in allowed);
  }

  predicate Permitted(decision: string, params: Params) {
    decision in APPROVALS && (params.available.Some? ==> decision in params.available.value)
  }

  /** A command offers exactly the known decisions the agent allows, and only a refusal when it allows none of them. */
  lemma OffersArePermitted(params: Params, r: Response)
    ensures r in Offers(CommandExecution, params) <==>
      r.Decision? && if exists d :: d in APPROVALS && Permitted(d, params) then Permitted(r.decision, params) else r.decision == "decline"
  {
    var available := if params.available.Some? then params.available.value else set d | d in APPROVALS;
    var allowed, offers := Allowed(available), Offers(CommandExecution, params);
    AllowedMembers(available);
    assert forall d :: d in allowed <==> Permitted(d, params);
    if allowed == [] {
      assert forall d :: d in APPROVALS ==> d !in allowed;
    } else {
      assert allowed[0] in allowed;
      if r.Decision? && r.decision in allowed {
        var i :| 0 <= i < |allowed| && allowed[i] == r.decision;
        assert offers[i] == r;
      }
      assert forall i :: 0 <= i < |allowed| ==> allowed[i] in allowed;
    }
  }

  /** Permissions are offered as asked, for the turn and for the session, and otherwise not at all. */
  lemma GrantsAreAsAsked(params: Params, r: Response)
    ensures r in Offers(Permissions, params) <==>
      r.Grant? && if r.permissions == params.permissions then r.scope in {"turn", "session"}
                  else r.permissions == map[] && r.scope == "turn"
    ensures exists refusal :: refusal in Offers(Permissions, params) && !Concedes(refusal)
  {
    var offers := Offers(Permissions, params);
    assert offers[0] == Grant(params.permissions, "turn") && offers[1] == Grant(params.permissions, "session");
    assert offers[2] == Grant(map[], "turn") && !Concedes(offers[2]);
    assert r in offers <==> r == offers[0] || r == offers[1] || r == offers[2];
  }

  /** Files and the older methods offer both to go ahead and to refuse, in the vocabulary of the method. */
  lemma OffersBothWays(m: Method, params: Params, r: Response)
    requires m == FileChange || Legacy(m)
    ensures r in Offers(m, params) <==>
      r.Decision? && r.decision in if m == FileChange then {"accept", "acceptForSession", "decline", "cancel"} else {"approved", "denied"}
    ensures |Offers(m, params)| == if m == FileChange then 4 else 2
  {
    var offers := Offers(m, params);
    if m == FileChange {
      assert r in offers <==> r == offers[0] || r == offers[1] || r == offers[2] || r == offers[3];
    } else {
      assert r in offers <==> r == offers[0] || r == offers[1];
    }
  }

  /** The questions asked are those with a text and an id that is not empty. */
  lemma {:induction false} AskedExactly(questions: seq<RawQuestion>, id: string)
    ensures id in Asked(questions) <==>
      id != "" && exists q :: q in questions && q.Question? && q.text != "" && (q.id == TextId(id) || q.id == OtherId(id))
  {
    if questions != [] {
      AskedExactly(questions[1..], id);
      assert questions == [questions[0]] + questions[1..];
    }
  }

  /**
   * Every interaction advertises cancel. It can be carried out exactly when the method is
   * not a permissions request, nor a command whose offered decisions only accept.
   */
  lemma CancelHasARefusal(m: Method, params: Params, token: nat -> string)
    requires Opens(m, params)
    ensures Cancellable(Build(m, params, token)) <==>
      (m != Permissions
       && (m == CommandExecution && params.available.Some? ==>
             "decline" in params.available.value || "cancel" in params.available.value
             || ("accept" !in params.available.value && "acceptForSession" !in params.available.value)))
  {
    var offers, content := Offers(m, params), Build(m, params, token);
    if m == FileChange {
      assert Refuses(content.choices[2].response);
    } else if Legacy(m) {
      assert Refuses(content.choices[1].response);
    } else if m == CommandExecution {
      var available := if params.available.Some? then params.available.value else set d | d in APPROVALS;
      var allowed := Allowed(available);
      AllowedMembers(available);
      assert APPROVALS[0] == "accept" && APPROVALS[1] == "acceptForSession" && APPROVALS[2] == "decline" && APPROVALS[3] == "cancel";
      if allowed == [] {
        forall k | 0 <= k < 4 ensures APPROVALS[k] !in available {
          assert APPROVALS[k] !in allowed;
        }
        assert Refuses(content.choices[0].response);
      } else {
        forall i | 0 <= i < |allowed| ensures content.choices[i].response == Decision(allowed[i])
          && allowed[i] in APPROVALS && allowed[i] in available {
          assert allowed[i] in allowed;
        }
        assert allowed[0] in available;
        if "decline" in available {
          var i :| 0 <= i < |allowed| && allowed[i] == "decline";
          assert Refuses(content.choices[i].response);
        } else if "cancel" in available {
          var i :| 0 <= i < |allowed| && allowed[i] == "cancel";
          assert Refuses(content.choices[i].response);
        }
      }
    }
  }

  // ---------------------------------------------------------------- submitted answers

  function Texts(values: seq<Option<string>>): seq<string> {
    if values == [] then [] else (if values[0].Some? then [values[0].value] else []) + Texts(values[1..])
  }

  function Normalized(submitted: Submission): map<string, seq<string>> {
    map id | id in submitted :: Texts(submitted[id])
  }

  function NotBlank(values: seq<Option<string>>): seq<string> {
    Filter(Texts(values), (s: string) => Strip(s) != "")
  }

  /** The submitted answers to the questions asked, and to no others. */
  function QuestionResponse(ids: seq<string>, submitted: Submission): Response {
    Answers(map id | id in ids :: if id in submitted then NotBlank(submitted[id]) else [])
  }

  lemma {:induction false} TextsMembers(values: seq<Option<string>>)
    ensures forall s :: s in Texts(values) <==> Some(s) in values
    ensures (forall v :: v in values ==> v.Some?) ==>
      |Texts(values)| == |values| && forall i :: 0 <= i < |values| ==> Some(Texts(values)[i]) == values[i]
  {
    if values != [] {
      TextsMembers(values[1..]);
      assert values == [values[0]] + values[1..];
    }
  }

  /** Each question asked is answered with exactly the texts submitted for it that are not blank. */
  lemma AnswersAreSubmitted(ids: seq<string>, submitted: Submission, id: string)
    requires id in ids
    ensures var r := QuestionResponse(ids, submitted);
      && r.Answers? && id in r.answers
      && (forall s :: s in r.answers[id] <==> id in submitted && Some(s) in submitted[id] && Strip(s) != "")
      && (id in submitted && (forall v :: v in submitted[id] ==> v.Some? && Strip(v.value) != "") ==>
            |r.answers[id]| == |submitted[id]| && forall i :: 0 <= i < |submitted[id]| ==> Some(r.answers[id][i]) == submitted[id][i])
  {
    hide Strip;
    if id in submitted {
      var texts := Texts(submitted[id]);
      TextsMembers(submitted[id]);
      FilterMembers(texts, (s: string) => Strip(s) != "");
      if forall v :: v in submitted[id] ==> v.Some? && Strip(v.value) != "" {
        forall s | s in texts ensures Strip(s) != "" {
          assert Some(s) in submitted[id];
        }
        FilterAll(texts, (s: string) => Strip(s) != "");
      }
    }
  }

  /** Submissions with the same identity would be answered alike. */
  lemma IdentityDecides(ids: seq<string>, a: Submission, b: Submission)
    requires Normalized(a) == Normalized(b)
    ensures QuestionResponse(ids, a) == QuestionResponse(ids, b)
  {
    forall id | id in ids ensures (if id in a then NotBlank(a[id]) else []) == (if id in b then NotBlank(b[id]) else []) {
      assert id in a <==> id in Normalized(a);
      assert id in b <==> id in Normalized(b);
      if id in a {
        assert Normalized(a)[id] == Texts(a[id]) && Normalized(b)[id] == Texts(b[id]);
      }
    }
  }

  /** An answer a pending request may be given: an offered response, or text for exactly the questions asked. */
  ghost predicate IsAnswer(content: Content, r: Response) {
    match content
    case Choices(choices) => exists i :: 0 <= i < |choices| && choices[i].response == r
    case Questions(ids) =>
      && r.Answers? && r.answers.Keys == (set id | id in ids)
      && forall id, s :: id in ids && s in r.answers[id] ==> Strip(s) != ""
  }

  lemma QuestionsAreAnswered(ids: seq<string>, submitted: Submission)
    ensures IsAnswer(Questions(ids), QuestionResponse(ids, submitted))
  {
    var r := QuestionResponse(ids, submitted);
    forall id, s | id in ids && s in r.answers[id] ensures Strip(s) != "" {
      FilterMembers(Texts(submitted[id]), (s: string) => Strip(s) != "");
    }
    assert r.answers.Keys == set id | id in ids;
  }

  // ---------------------------------------------------------------- interactions

  /** The future a request waits on. */
  datatype Future = Waiting | Resolved(response: Response) | Cancelled

  datatype Identity = Identity(session: string, interaction: string, option: string, answers: map<string, seq<string>>)
  datatype Receipt = Receipt(identity: Identity, generation: nat, updatedAt: int)
  datatype Outcome =
    | Answered(generation: nat, duplicate: bool)
    | InvalidRequest | RequestReused | NotCurrent | AlreadyResolved | UnknownOption | CannotCancel

  function Generation(generations: map<string, nat>, session: string): nat {
    if session in generations then generations[session] else 0
  }

  /** The two maps name the same interactions, one for each session. */
  ghost predicate Inverse(bySession: map<string, Pending>, byId: map<string, Pending>) {
    && (forall s :: s in bySession ==>
      bySession[s].session == s && bySession[s].id in byId && byId[bySession[s].id] == bySession[s])
    && (forall i :: i in byId ==>
      byId[i].id == i && byId[i].session in bySession && bySession[byId[i].session] == byId[i])
  }

  /** No two interactions of a session share a generation, and the latest is the largest. */
  ghost predicate Numbered(history: map<string, Pending>, generations: map<string, nat>) {
    && (forall i :: i in history ==>
      history[i].id == i && 1 <= history[i].generation <= Generation(generations, history[i].session))
    && (forall i, j :: i in history && j in history && i != j && history[i].session == history[j].session ==>
      history[i].generation != history[j].generation)
  }

  /** Interactions that are over are settled, and resolved ones hold a proper answer. */
  ghost predicate Settled(history: map<string, Pending>, futures: map<string, Future>, byId: map<string, Pending>) {
    && history.Keys == futures.Keys
    && (forall i :: i in byId ==> i in history && history[i] == byId[i])
    && (forall i :: i in history && i !in byId ==> futures[i] != Waiting)
    && (forall i :: i in history && futures[i].Resolved? ==> IsAnswer(history[i].content, futures[i].response))
  }

  /** A receipt stands for an interaction that was resolved. */
  ghost predicate Receipted(receipts: map<string, Receipt>, history: map<string, Pending>,
                            futures: map<string, Future>) {
    forall r :: r in receipts ==>
      && receipts[r].identity.interaction in history && receipts[r].identity.interaction in futures
      && futures[receipts[r].identity.interaction].Resolved?
      && history[receipts[r].identity.interaction].session == receipts[r].identity.session
      && history[receipts[r].identity.interaction].generation == receipts[r].generation
  }

  /** Futures are only ever added or settled, and a settled one never changes. */
  ghost predicate OnlySettles(before: map<string, Future>, after: map<string, Future>) {
    forall i :: i in before ==> i in after && (before[i] != Waiting ==> after[i] == before[i])
  }

  /** The receipts that are not older than the cutoff, as they were. */
  function Pruned(receipts: map<string, Receipt>, cutoff: int): (kept: map<string, Receipt>)
    ensures forall r :: r in receipts && r !in kept <==> r in receipts && receipts[r].updatedAt < cutoff
    ensures kept.Keys <= receipts.Keys && forall r :: r in kept ==> kept[r] == receipts[r]
  {
    map r | r in receipts && receipts[r].updatedAt >= cutoff :: receipts[r]
  }

  /** What a response makes of a pending interaction, if its option is known. */
  function AnswerOf(content: Content, option: string, submitted: Submission): Option<Response> {
    match content
    case Questions(ids) => Some(QuestionResponse(ids, submitted))
    case Choices(choices) => FirstChoice(choices, option)
  }

  function FirstChoice(choices: seq<Choice>, option: string): Option<Response> {
    if choices == [] then None else if choices[0].id == option then Some(choices[0].response) else FirstChoice(choices[1..], option)
  }

  lemma {:induction false} FirstChoiceIsOffered(choices: seq<Choice>, option: string)
    ensures FirstChoice(choices, option).Some? ==>
      exists i :: 0 <= i < |choices| && choices[i].id == option && choices[i].response == FirstChoice(choices, option).value
    ensures FirstChoice(choices, option).None? ==> forall i :: 0 <= i < |choices| ==> choices[i].id != option
  {
    if choices != [] && choices[0].id != option {
      FirstChoiceIsOffered(choices[1..], option);
      if FirstChoice(choices, option).Some? {
        var i :| 0 <= i < |choices[1..]| && choices[1..][i].id == option
          && choices[1..][i].response == FirstChoice(choices[1..], option).value;
        assert choices[i + 1].id == option;
      }
    }
  }

  lemma AnswersAreProper(content: Content, option: string, submitted: Submission)
    ensures AnswerOf(content, option, submitted).Some? ==> IsAnswer(content, AnswerOf(content, option, submitted).value)
  {
    match content
    case Questions(ids) => QuestionsAreAnswered(ids, submitted);
    case Choices(choices) => FirstChoiceIsOffered(choices, option);
  }

  // ---------------------------------------------------------------- steps keep the invariants

  lemma OpeningKeeps(bySession: map<string, Pending>, byId: map<string, Pending>, history: map<string, Pending>,
                     futures: map<string, Future>,
                     generations: map<string, nat>, p: Pending)
    requires Inverse(bySession, byId) && Numbered(history, generations) && Settled(history, futures, byId)
    requires p.session !in bySession && p.id !in history && p.generation == Generation(generations, p.session) + 1
    ensures Inverse(bySession[p.session := p], byId[p.id := p])
    ensures Numbered(history[p.id := p], generations[p.session := p.generation])
    ensures Settled(history[p.id := p], futures[p.id := Waiting], byId[p.id := p])
  {
    hide IsAnswer;
    assert p.id !in byId;
    NumberedGrows(history, generations, p);
    InverseGrows(bySession, byId, p);
    hide Numbered, Inverse;
  }

  lemma InverseGrows(bySession: map<string, Pending>, byId: map<string, Pending>, p: Pending)
    requires Inverse(bySession, byId) && p.session !in bySession && p.id !in byId
    ensures Inverse(bySession[p.session := p], byId[p.id := p])
  {
  }

  lemma NumberedGrows(history: map<string, Pending>, generations: map<string, nat>, p: Pending)
    requires Numbered(history, generations) && p.id !in history
    requires p.generation == Generation(generations, p.session) + 1
    ensures Numbered(history[p.id := p], generations[p.session := p.generation])
  {
  }

  lemma ClosingKeeps(bySession: map<string, Pending>, byId: map<string, Pending>, history: map<string, Pending>,
                     futures: map<string, Future>, id: string)
    requires Inverse(bySession, byId) && Settled(history, futures, byId) && id in byId && futures[id] != Waiting
    ensures Inverse(bySession - {byId[id].session}, byId - {id})
    ensures Settled(history, futures, byId - {id})
  {
    hide IsAnswer;
  }

  lemma SettlingKeeps(byId: map<string, Pending>, history: map<string, Pending>, futures: map<string, Future>,
                      receipts: map<string, Receipt>, id: string, to: Future)
    requires Settled(history, futures, byId) && Receipted(receipts, history, futures)
    requires id in futures && futures[id] == Waiting && to != Waiting
    requires (to.Resolved? ==> IsAnswer(history[id].content, to.response))
    ensures Settled(history, futures[id := to], byId) && Receipted(receipts, history, futures[id := to])
    ensures OnlySettles(futures, futures[id := to])
  {
    hide IsAnswer;
  }

  class AppServerInteractionBroker {
    const receiptTtl: nat
    var pendingBySession: map<string, Pending>
    var pendingById: map<string, Pending>
    var futures: map<string, Future>
    var generations: map<string, nat>
    var receipts: map<string, Receipt>
    ghost var history: map<string, Pending>

    ghost predicate Valid()
      reads this
    {
      && Inverse(pendingBySession, pendingById) && Numbered(history, generations)
      && Settled(history, futures, pendingById) && Receipted(receipts, history, futures)
    }

    constructor (receiptTtl: nat)
      ensures Valid() && history == map[]
    {
      this.receiptTtl := receiptTtl;
      pendingBySession, pendingById, futures, generations, receipts, history := map[], map[], map[], map[], map[], map[];
    }

    /**
     * A request from the agent. It is declined at once while the session has another one
     * pending, or when nothing can be asked; otherwise it waits on a new future.
     */
    method Request(session: string, m: Method, params: Params, id: string, token: nat -> string)
      returns (declined: Option<Response>)
      requires Valid() && id !in history
      modifies this
      ensures Valid() && OnlySettles(old(futures), futures) && receipts == old(receipts)
      ensures declined.Some? <==> session in old(pendingBySession) || !Opens(m, params)
      ensures declined.Some? ==> declined.value == Declined(m, params) && !Concedes(declined.value)
      ensures declined.Some? ==>
        pendingBySession == old(pendingBySession) && pendingById == old(pendingById) && futures == old(futures) && history == old(history)
      ensures declined.None? ==>
        var p := Pending(id, session, m, Generation(generations, session), Build(m, params, token));
        && pendingBySession == old(pendingBySession)[session := p] && pendingById == old(pendingById)[id := p]
        && history == old(history)[id := p] && futures == old(futures)[id := Waiting]
      ensures generations == if session in old(pendingBySession) || (params.thread == "" && !Legacy(m)) then old(generations)
                             else old(generations)[session := Generation(old(generations), session) + 1]
    {
      hide IsAnswer, Inverse, Settled, Receipted, Build, Declined, Concedes;
      DeclinedRefuses(m, params);
      if session in pendingBySession {
        return Some(Declined(m, params));
      }
      if params.thread == "" && !Legacy(m) {
        return Some(Declined(m, params));
      }
      ghost var before := generations;
      generations := generations[session := Generation(generations, session) + 1];
      if m == Unknown || (m == UserInput && Asked(params.questions) == []) {
        return Some(Declined(m, params));
      }
      var p := Pending(id, session, m, Generation(generations, session), Build(m, params, token));
      OpeningKeeps(pendingBySession, pendingById, history, futures, before, p);
      OpeningKeepsReceipts(receipts, history, futures, pendingById, p);
      pendingBySession, pendingById := pendingBySession[session := p], pendingById[id := p];
      futures := futures[id := Waiting];
      history := history[id := p];
      return None;
    }

    /** The waiting request resumes with its answer, and the interaction is closed. */
    method Resume(id: string) returns (response: Option<Response>)
      requires Valid() && id in pendingById && futures[id] != Waiting
      modifies this
      ensures Valid() && futures == old(futures) && history == old(history) && receipts == old(receipts)
      ensures generations == old(generations)
      ensures response.Some? <==> futures[id].Resolved?
      ensures response.Some? ==>
        response.value == futures[id].response && IsAnswer(old(pendingById)[id].content, response.value)
      ensures pendingById == old(pendingById) - {id}
      ensures pendingBySession == old(pendingBySession) - {old(pendingById)[id].session}
    {
      hide IsAnswer, Receipted, Numbered;
      ClosingKeeps(pendingBySession, pendingById, history, futures, id);
      assert history[id] == pendingById[id];
      response := if futures[id].Resolved? then Some(futures[id].response) else None;
      pendingBySession, pendingById := pendingBySession - {pendingById[id].session}, pendingById - {id};
    }

    /** The task of the waiting request is cancelled; an answer already given stays given. */
    method Abort(id: string)
      requires Valid() && id in pendingById
      modifies this
      ensures Valid() && OnlySettles(old(futures), futures) && futures == old(futures)[id := futures[id]]
      ensures futures[id] != Waiting
      ensures history == old(history) && receipts == old(receipts) && generations == old(generations)
      ensures pendingById == old(pendingById) - {id}
      ensures pendingBySession == old(pendingBySession) - {old(pendingById)[id].session}
    {
      hide IsAnswer, Inverse, Receipted, Numbered;
      assert id in futures;
      if futures[id] == Waiting {
        SettlingKeeps(pendingById, history, futures, receipts, id, Cancelled);
        futures := futures[id := Cancelled];
      }
      ClosingKeeps(pendingBySession, pendingById, history, futures, id);
      KnowsSession(pendingBySession, pendingById, id);
      pendingBySession, pendingById := pendingBySession - {pendingById[id].session}, pendingById - {id};
    }

    /**
     * A response from the browser. It resolves the future of the current interaction, once;
     * repeated under the same request id it is answered from its receipt, and anything else
     * changes no future.
     */
    method Respond(session: string, interaction: string, option: string, submitted: Submission, requestId: string,
                   now: int) returns (outcome: Outcome)
      requires Valid()
      modifies this
      ensures Valid() && OnlySettles(old(futures), futures) && history == old(history)
      ensures generations == old(generations)
      ensures pendingById == old(pendingById) && pendingBySession == old(pendingBySession)
      ensures var identity := Identity(session, interaction, option, Normalized(submitted));
        var kept := Pruned(old(receipts), now - receiptTtl);
        if !ValidRequestId(requestId) then outcome == InvalidRequest
        else if requestId in kept
          then outcome == (if kept[requestId].identity == identity then Answered(kept[requestId].generation, true) else RequestReused)
        else if !(interaction in pendingById && pendingById[interaction].session == session) then outcome == NotCurrent
        else if old(futures)[interaction] != Waiting then outcome == AlreadyResolved
        else if AnswerOf(pendingById[interaction].content, option, submitted).None? then outcome == UnknownOption
        else outcome == Answered(pendingById[interaction].generation, false)
      ensures !(outcome.Answered? && !outcome.duplicate) ==>
        futures == old(futures) && receipts == Pruned(old(receipts), now - receiptTtl)
      ensures outcome.Answered? && !outcome.duplicate ==>
        && interaction in pendingById && old(futures)[interaction] == Waiting
        && AnswerOf(pendingById[interaction].content, option, submitted).Some?
        && futures == old(futures)[interaction := Resolved(AnswerOf(pendingById[interaction].content, option, submitted).value)]
        && receipts == Pruned(old(receipts), now - receiptTtl)[requestId :=
             Receipt(Identity(session, interaction, option, Normalized(submitted)), outcome.generation, now)]
    {
      hide IsAnswer, Inverse, Numbered, AnswerOf, Normalized, ValidRequestId;
      receipts := Pruned(receipts, now - receiptTtl);
      if !ValidRequestId(requestId) {
        return InvalidRequest;
      }
      var identity := Identity(session, interaction, option, Normalized(submitted));
      if requestId in receipts {
        return if receipts[requestId].identity == identity then Answered(receipts[requestId].generation, true) else RequestReused;
      }
      if interaction !in pendingById || pendingById[interaction].session != session {
        return NotCurrent;
      }
      var pending := pendingById[interaction];
      if futures[interaction] != Waiting {
        return AlreadyResolved;
      }
      var answer := AnswerOf(pending.content, option, submitted);
      if answer.None? {
        return UnknownOption;
      }
      AnswersAreProper(pending.content, option, submitted);
      SettlingKeeps(pendingById, history, futures, receipts, interaction, Resolved(answer.value));
      futures := futures[interaction := Resolved(answer.value)];
      receipts := receipts[requestId := Receipt(identity, pending.generation, now)];
      return Answered(pending.generation, false);
    }

    /** Cancel answers with the first refusing choice, or with no answer to every question. */
    method Cancel(session: string, requestId: string, now: int) returns (outcome: Outcome)
      requires Valid()
      modifies this
      ensures Valid() && OnlySettles(old(futures), futures) && history == old(history)
      ensures session !in old(pendingBySession) ==> outcome == NotCurrent
      ensures session in old(pendingBySession) ==>
        (outcome == CannotCancel <==> !Cancellable(old(pendingBySession)[session].content))
      ensures session in old(pendingBySession) && Cancellable(old(pendingBySession)[session].content) ==>
        CancelEnds(old(pendingBySession)[session], old(futures), requestId, requestId in Pruned(old(receipts), now - receiptTtl), outcome)
      ensures !(outcome.Answered? && !outcome.duplicate) ==> futures == old(futures)
      ensures outcome.Answered? && !outcome.duplicate ==>
        && session in old(pendingBySession) && old(pendingBySession)[session].id in futures
        && futures[old(pendingBySession)[session].id].Resolved?
        && IsCancel(old(pendingBySession)[session].content, futures[old(pendingBySession)[session].id].response)
    {
      hide IsAnswer, Numbered, Receipted, AnswerOf, IsCancel, Cancellable, ValidRequestId;
      if session !in pendingBySession {
        return NotCurrent;
      }
      var pending := pendingBySession[session];
      var option, submitted := "", map[];
      match pending.content {
        case Questions(ids) =>
          submitted := map id | id in ids :: [];
          CancelQuestions(ids, submitted);
        case Choices(choices) =>
          var refusal := FirstRefusal(choices);
          NoRefusal(choices, refusal);
          if refusal == |choices| {
            return CannotCancel;
          }
          option := choices[refusal].id;
          CancelChoice(choices, refusal);
      }
      outcome := Respond(session, pending.id, option, submitted, requestId, now);
    }
  }

  /** How a cancel that can be carried out ends: it answers a waiting interaction, unless its request id is no good. */
  predicate CancelEnds(p: Pending, futures: map<string, Future>, requestId: string, known: bool, outcome: Outcome) {
    if !ValidRequestId(requestId) then outcome == InvalidRequest
    else if known then outcome == RequestReused || (outcome.Answered? && outcome.duplicate)
    else p.id in futures && outcome == if futures[p.id] == Waiting then Answered(p.generation, false) else AlreadyResolved
  }

  /** The answers that refuse: a refusing choice, or an empty answer to each question asked. */
  ghost predicate IsCancel(content: Content, r: Response) {
    match content
    case Choices(choices) => TokensDiffer(choices) ==> Refuses(r)
    case Questions(ids) => r == Answers(map id | id in ids :: [])
  }

  lemma CancelQuestions(ids: seq<string>, submitted: Submission)
    requires submitted == map id | id in ids :: []
    ensures Cancellable(Questions(ids))
    ensures AnswerOf(Questions(ids), "", submitted).Some?
    ensures IsCancel(Questions(ids), AnswerOf(Questions(ids), "", submitted).value)
  {
  }

  lemma CancelChoice(choices: seq<Choice>, k: nat)
    requires k < |choices| && Refuses(choices[k].response)
    ensures AnswerOf(Choices(choices), choices[k].id, map[]).Some?
    ensures IsCancel(Choices(choices), AnswerOf(Choices(choices), choices[k].id, map[]).value)
  {
    FirstChoiceIsOffered(choices, choices[k].id);
  }

  lemma NoRefusal(choices: seq<Choice>, k: nat)
    requires k <= |choices| && (k < |choices| ==> Refuses(choices[k].response))
    requires forall i :: 0 <= i < k ==> !Refuses(choices[i].response)
    ensures Cancellable(Choices(choices)) <==> k < |choices|
  {
  }

  /** Choice ids are random tokens, all different. */
  ghost predicate TokensDiffer(choices: seq<Choice>) {
    forall i, j :: 0 <= i < j < |choices| ==> choices[i].id != choices[j].id
  }

  method FirstRefusal(choices: seq<Choice>) returns (k: nat)
    ensures k <= |choices| && (k < |choices| ==> Refuses(choices[k].response))
    ensures forall i :: 0 <= i < k ==> !Refuses(choices[i].response)
  {
    k := 0;
    while k < |choices| && !Refuses(choices[k].response)
      invariant k <= |choices| && forall i :: 0 <= i < k ==> !Refuses(choices[i].response)
    {
      k := k + 1;
    }
  }

  lemma OpeningKeepsReceipts(receipts: map<string, Receipt>, history: map<string, Pending>,
                             futures: map<string, Future>, byId: map<string, Pending>, p: Pending)
    requires Receipted(receipts, history, futures) && Settled(history, futures, byId) && p.id !in history
    ensures Receipted(receipts, history[p.id := p], futures[p.id := Waiting])
    ensures OnlySettles(futures, futures[p.id := Waiting])
  {
    hide IsAnswer;
  }

  lemma KnowsSession(bySession: map<string, Pending>, byId: map<string, Pending>, id: string)
    requires Inverse(bySession, byId) && id in byId
    ensures byId[id].session in bySession && bySession[byId[id].session] == byId[id]
  {
  }
}
