/**
 * One run of the chat script after the user submits a query: the user turn
 * is appended to the message log, the prompt is compiled from the log, the
 * model is called, and its reply is appended as an "ai" turn.
 */
module ChatTurn {
  import opened Wrappers
  import opened PromptChain

  /** The outcome of the model call: a reply, or an exception that escapes the script run. */
  datatype Reply = Answered(text: string) | Raised

  /** The log after the run, and the prompt handed to the model, if one was. */
  datatype Cycle = Cycle(log: seq<Entry>, sent: Option<seq<Message>>)

  /** Python truthiness of the chat input: nothing submitted, or an empty string, is false. */
  predicate Submitted(query: Option<string>)
  {
    query.Some? && query.value != []
  }

  /**
   * The turn cycle. `system` is the directive built once per script run
   * (`SystemPrompt.SystemText`); `invoke` stands for the model pipeline and
   * receives the compiled prompt and the query. With no query the log is left alone.
   * Otherwise the user turn is appended first, so the prompt the model sees
   * already ends with it; on a reply the "ai" turn follows, and on an
   * exception the user turn stays without an answer.
   */
  function RunTurn(system: string, log: seq<Entry>, query: Option<string>, invoke: (seq<Message>, string) -> Reply): (c: Cycle)
    ensures !Submitted(query) ==> c == Cycle(log, None)
    ensures Submitted(query) ==>
      && c.sent.Some?
      && |c.log| > |log|
      && c.log[..|log|] == log
      && c.log[|log|] == Entry(UserRole, query.value)
      && c.sent.value == CompileChain(system, c.log[..|log| + 1])
      && c.sent.value[|c.sent.value| - 1] == Message(HumanKind, query.value)
      && (invoke(c.sent.value, query.value).Answered? ==>
            c.log == log + [Entry(UserRole, query.value), Entry(AiRole, invoke(c.sent.value, query.value).text)])
      && (invoke(c.sent.value, query.value).Raised? ==> c.log == log + [Entry(UserRole, query.value)])
  {
    if !Submitted(query) then
      Cycle(log, None)
    else
      var q := query.value;
      var withUser := log + [Entry(UserRole, q)];
      var chain := CompileChain(system, withUser);
      CarriedEntryAppends(system, log, Entry(UserRole, q));
      assert withUser[..|log|] == log && withUser[..|log| + 1] == withUser;
      match invoke(chain, q)
      case Answered(reply) =>
        var after := withUser + [Entry(AiRole, reply)];
        assert after[..|log| + 1] == withUser;
        Cycle(after, Some(chain))
      case Raised =>
        Cycle(withUser, Some(chain))
  }

  /** Every entry the cycle writes is carried, and every "ai" turn directly follows a "user" turn. */
  ghost predicate Answerable(log: seq<Entry>)
  {
    forall k {:trigger log[k]} :: 0 <= k < |log| ==>
      Carried(log[k]) && (log[k].role == AiRole ==> k > 0 && log[k - 1].role == UserRole)
  }

  /** A log of complete question/answer pairs: "user" at even positions, "ai" at odd ones. */
  ghost predicate Paired(log: seq<Entry>)
  {
    && |log| % 2 == 0
    && forall k :: 0 <= k < |log| ==> log[k].role == (if k % 2 == 0 then UserRole else AiRole)
  }

  /** The cycle keeps the log answerable, whatever the model does. */
  lemma TurnKeepsAnswerable(system: string, log: seq<Entry>, query: Option<string>, invoke: (seq<Message>, string) -> Reply)
    requires Answerable(log)
    ensures Answerable(RunTurn(system, log, query, invoke).log)
  {
    var c := RunTurn(system, log, query, invoke);
    if Submitted(query) {
      var q := query.value;
      var user := Entry(UserRole, q);
      match invoke(c.sent.value, q)
      case Answered(reply) =>
        AppendKeepsAnswerable(log, [user, Entry(AiRole, reply)]);
      case Raised =>
        AppendKeepsAnswerable(log, [user]);
    }
  }

  /** Appending a user turn, optionally answered, keeps a log answerable. */
  lemma AppendKeepsAnswerable(log: seq<Entry>, turns: seq<Entry>)
    requires Answerable(log)
    requires |turns| == 1 || |turns| == 2
    requires turns[0].role == UserRole
    requires |turns| == 2 ==> turns[1].role == AiRole
    ensures Answerable(log + turns)
  {
    var l := log + turns;
    forall k | 0 <= k < |l|
      ensures Carried(l[k]) && (l[k].role == AiRole ==> k > 0 && l[k - 1].role == UserRole)
    {
      if k < |log| {
        assert l[k] == log[k];
        if k > 0 {
          assert l[k - 1] == log[k - 1];
        }
      } else {
        assert l[k] == turns[k - |log|];
        assert UserRole != AiRole;
        if k == |log| + 1 {
          assert l[k - 1] == turns[0];
        }
      }
    }
  }

  /** A cycle whose model call answers keeps a paired log paired, adding exactly one pair. */
  lemma TurnKeepsPaired(system: string, log: seq<Entry>, query: Option<string>, invoke: (seq<Message>, string) -> Reply)
    requires Paired(log)
    requires Submitted(query) ==> invoke(RunTurn(system, log, query, invoke).sent.value, query.value).Answered?
    ensures Paired(RunTurn(system, log, query, invoke).log)
    ensures |RunTurn(system, log, query, invoke).log| == |log| + (if Submitted(query) then 2 else 0)
  {
    var c := RunTurn(system, log, query, invoke);
    if Submitted(query) {
      var q := query.value;
      var reply := invoke(c.sent.value, q).text;
      AppendKeepsPaired(log, q, reply);
    }
  }

  /** Appending one question/answer pair keeps a log paired. */
  lemma AppendKeepsPaired(log: seq<Entry>, q: string, reply: string)
    requires Paired(log)
    ensures Paired(log + [Entry(UserRole, q), Entry(AiRole, reply)])
  {
    var l := log + [Entry(UserRole, q), Entry(AiRole, reply)];
    forall k | 0 <= k < |l|
      ensures l[k].role == (if k % 2 == 0 then UserRole else AiRole)
    {
      if k < |log| {
        assert l[k] == log[k];
      }
    }
  }

  /** A log of `n` complete pairs compiles to a prompt of `1 + 2n` messages. */
  lemma PairedChainLength(system: string, log: seq<Entry>)
    requires Paired(log)
    ensures |CompileChain(system, log)| == 1 + 2 * (|log| / 2)
  {
    KeptAll(log);
  }

  /** A failed model call leaves the log one entry longer than before, ending in the unanswered user turn. */
  lemma FailureKeepsUserTurn(system: string, log: seq<Entry>, q: string, invoke: (seq<Message>, string) -> Reply)
    requires q != []
    requires invoke(CompileChain(system, log + [Entry(UserRole, q)]), q) == Raised
    ensures RunTurn(system, log, Some(q), invoke).log == log + [Entry(UserRole, q)]
  {
  }
}
