/**
 * The prompt compiler: the message log, one `{role, content}` entry per turn,
 * becomes the message sequence sent to the model, headed by the system
 * directive. Only "user" and "ai" entries are carried over.
 */
module PromptChain {

  /** One entry of the session's message log. */
  datatype Entry = Entry(role: string, content: string)

  /** Which message template an entry of the compiled prompt is. */
  datatype Kind = SystemKind | HumanKind | AiKind

  /** One entry of the compiled prompt. */
  datatype Message = Message(kind: Kind, text: string)

  const UserRole: string := "user"
  const AiRole: string := "ai"

  /** The log entries the compiler carries over; every other role is dropped. */
  predicate Carried(e: Entry)
  {
    e.role == UserRole || e.role == AiRole
  }

  /** A carried log entry as a prompt message: "user" becomes human, "ai" becomes AI, text kept. */
  function ToMessage(e: Entry): (m: Message)
    requires Carried(e)
    ensures m.kind != SystemKind && m.text == e.content
    ensures m.kind == HumanKind <==> e.role == UserRole
  {
    if e.role == UserRole then Message(HumanKind, e.content) else Message(AiKind, e.content)
  }

  /** The log entry a non-system prompt message stands for. */
  function ToEntry(m: Message): (e: Entry)
    requires m.kind != SystemKind
    ensures Carried(e) && e.content == m.text
  {
    Entry(if m.kind == HumanKind then UserRole else AiRole, m.text)
  }

  /** Translating a carried entry to a message and back gives the entry. */
  lemma EntryRoundTrip(e: Entry)
    requires Carried(e)
    ensures ToEntry(ToMessage(e)) == e
  {
  }

  /** Translating a non-system message to an entry and back gives the message. */
  lemma MessageRoundTrip(m: Message)
    requires m.kind != SystemKind
    ensures ToMessage(ToEntry(m)) == m
  {
  }

  /** The carried entries of `log`, in log order. */
  function Kept(log: seq<Entry>): (r: seq<Entry>)
    ensures |r| <= |log|
    ensures forall k :: 0 <= k < |r| ==> Carried(r[k])
  {
    if |log| == 0 then []
    else
      var last := log[|log| - 1];
      Kept(log[..|log| - 1]) + (if Carried(last) then [last] else [])
  }

  /** The carried entries are exactly the log's "user" and "ai" entries. */
  lemma {:induction false} KeptMembers(log: seq<Entry>)
    ensures forall e :: e in Kept(log) <==> e in log && Carried(e)
    decreases |log|
  {
    if |log| > 0 {
      KeptMembers(log[..|log| - 1]);
      assert log == log[..|log| - 1] + [log[|log| - 1]];
    }
  }

  /** The messages the loop over the log appends, one per carried entry, in log order. */
  function Conversation(log: seq<Entry>): seq<Message>
  {
    if |log| == 0 then []
    else
      var last := log[|log| - 1];
      Conversation(log[..|log| - 1]) + (if Carried(last) then [ToMessage(last)] else [])
  }

  /** The appended messages stand one for one for the carried entries. */
  lemma {:induction false} ConversationKept(log: seq<Entry>)
    ensures |Conversation(log)| == |Kept(log)|
    ensures forall k :: 0 <= k < |Conversation(log)| ==> Conversation(log)[k] == ToMessage(Kept(log)[k])
    decreases |log|
  {
    if |log| > 0 {
      ConversationKept(log[..|log| - 1]);
    }
  }

  /**
   * The compiled prompt: the system directive first, then exactly the carried
   * log entries, in log order and with their text, as human/AI messages.
   */
  function CompileChain(system: string, log: seq<Entry>): (r: seq<Message>)
    ensures |r| == 1 + |Kept(log)|
    ensures r[0] == Message(SystemKind, system)
    ensures forall k :: 1 <= k < |r| ==> r[k] == ToMessage(Kept(log)[k - 1])
  {
    ConversationKept(log);
    [Message(SystemKind, system)] + Conversation(log)
  }

  /** `build_prompt_chain`: one pass over the log, appending a template per carried entry. */
  method BuildPromptChain(system: string, log: seq<Entry>) returns (chain: seq<Message>)
    ensures chain == CompileChain(system, log)
  {
    chain := [Message(SystemKind, system)];
    var i := 0;
    while i < |log|
      invariant 0 <= i <= |log|
      invariant chain == [Message(SystemKind, system)] + Conversation(log[..i])
    {
      var msg := log[i];
      ConversationStep(log, i);
      if msg.role == UserRole {
        chain := chain + [Message(HumanKind, msg.content)];
      } else if msg.role == AiRole {
        chain := chain + [Message(AiKind, msg.content)];
      }
      i := i + 1;
    }
    assert log[..i] == log;

  }

  lemma ConversationStep(log: seq<Entry>, i: nat)
    requires i < |log|
    ensures log[i].role == UserRole ==>
      Conversation(log[..i + 1]) == Conversation(log[..i]) + [Message(HumanKind, log[i].content)]
    ensures log[i].role != UserRole && log[i].role == AiRole ==>
      Conversation(log[..i + 1]) == Conversation(log[..i]) + [Message(AiKind, log[i].content)]
    ensures log[i].role != UserRole && log[i].role != AiRole ==>
      Conversation(log[..i + 1]) == Conversation(log[..i])
  {
    assert log[..i + 1][..i] == log[..i];
  }

  /** Reading the compiled prompt back past its head recovers the carried log entries. */
  lemma {:induction false} ChainRoundTrip(system: string, log: seq<Entry>)
    ensures Entries(CompileChain(system, log)[1..]) == Kept(log)
  {
    var tail := CompileChain(system, log)[1..];
    assert |Entries(tail)| == |Kept(log)|;
    forall k | 0 <= k < |tail|
      ensures Entries(tail)[k] == Kept(log)[k]
    {
      EntriesAt(tail, k);
      EntryRoundTrip(Kept(log)[k]);
    }
  }

  /** The log entries a sequence of non-system messages stands for. */
  function Entries(ms: seq<Message>): (es: seq<Entry>)
    requires forall k :: 0 <= k < |ms| ==> ms[k].kind != SystemKind
    ensures |es| == |ms|
  {
    if |ms| == 0 then [] else [ToEntry(ms[0])] + Entries(ms[1..])
  }

  lemma {:induction false} EntriesAt(ms: seq<Message>, k: nat)
    requires forall j :: 0 <= j < |ms| ==> ms[j].kind != SystemKind
    requires k < |ms|
    ensures Entries(ms)[k] == ToEntry(ms[k])
    decreases k
  {
    if k > 0 {
      EntriesAt(ms[1..], k - 1);
    }
  }

  /** Filtering distributes over concatenation of logs. */
  lemma {:induction false} KeptAppend(a: seq<Entry>, b: seq<Entry>)
    ensures Kept(a + b) == Kept(a) + Kept(b)
    decreases |b|
  {
    if |b| > 0 {
      var ab := a + b;
      assert ab[..|ab| - 1] == a + b[..|b| - 1];
      assert ab[|ab| - 1] == b[|b| - 1];
      KeptAppend(a, b[..|b| - 1]);
    } else {
      assert a + b == a;
    }
  }

  /** A log made only of "user" and "ai" entries is carried over whole. */
  lemma {:induction false} KeptAll(log: seq<Entry>)
    requires forall k :: 0 <= k < |log| ==> Carried(log[k])
    ensures Kept(log) == log
    decreases |log|
  {
    if |log| > 0 {
      KeptAll(log[..|log| - 1]);
      assert log == log[..|log| - 1] + [log[|log| - 1]];
    }
  }

  /** An entry with any other role, a "system" one included, adds nothing to the prompt. */
  lemma DroppedRole(system: string, log: seq<Entry>, e: Entry)
    requires !Carried(e)
    ensures CompileChain(system, log + [e]) == CompileChain(system, log)
  {
    assert (log + [e])[..|log|] == log;
  }

  /** Appending a carried entry appends its message to the prompt. */
  lemma CarriedEntryAppends(system: string, log: seq<Entry>, e: Entry)
    requires Carried(e)
    ensures CompileChain(system, log + [e]) == CompileChain(system, log) + [ToMessage(e)]
  {
    assert (log + [e])[..|log|] == log;
  }
}
