/** The messages of a transcript. A Codex transcript tells the same message twice, as a response item and as an
    event; for each role and text the parser keeps as many as the more talkative of the two tells, and every
    message of another kind. */
module Transcript {
  import opened Wrappers

  datatype Kind = ResponseItem | EventMessage | Other

  /** What a record normalizes to, if to anything. */
  datatype Record = Record(kind: Kind, role: string, text: Option<string>)

  datatype Message = Message(role: string, text: string, recordIndex: nat)

  /** The privacy policy on one text: what is left of it, and whether that is different. */
  type Policy = string -> (string, bool)

  function Key(role: string, text: string): string { role + "\0" + text }

  function KeyOf(m: Message): string { Key(m.role, m.text) }

  predicate Tells(r: Record, kind: Kind, key: string) {
    r.kind == kind && r.text.Some? && Key(r.role, r.text.value) == key
  }

  /** How many records of a kind tell the key. */
  function Told(records: seq<Record>, kind: Kind, key: string): nat {
    if records == [] then 0
    else Told(records[..|records| - 1], kind, key) + if Tells(records[|records| - 1], kind, key) then 1 else 0
  }

  function Emitted(messages: seq<Message>, key: string): nat {
    if messages == [] then 0
    else Emitted(messages[..|messages| - 1], key) + if KeyOf(messages[|messages| - 1]) == key then 1 else 0
  }

  // ---------------------------------------------------------------- by role and text

  /** Distinct roles and texts have distinct keys, as long as no role contains the separator. */
  lemma {:induction false} KeysAreDistinct(r1: string, t1: string, r2: string, t2: string)
    requires '\0' !in r1 && '\0' !in r2 && Key(r1, t1) == Key(r2, t2)
    ensures r1 == r2 && t1 == t2
  {
    var k1, k2 := Key(r1, t1), Key(r2, t2);
    assert k1[|r1|] == '\0' && k2[|r2|] == '\0';
    assert forall i | 0 <= i < |r1| :: k1[i] == r1[i];
    assert forall i | 0 <= i < |r2| :: k2[i] == r2[i];
    assert |r1| == |r2|;
    assert k1[..|r1|] == r1 && k2[..|r2|] == r2 && k1[|r1| + 1..] == t1 && k2[|r2| + 1..] == t2;
  }

  predicate Separable(role: string) { '\0' !in role }

  /** How many records of a kind have the role and the text. */
  function RecordsOf(records: seq<Record>, kind: Kind, role: string, text: string): nat {
    if records == [] then 0
    else
      var r := records[|records| - 1];
      RecordsOf(records[..|records| - 1], kind, role, text) + if r.kind == kind && r.role == role && r.text == Some(text) then 1 else 0
  }

  function MessagesOf(messages: seq<Message>, role: string, text: string): nat {
    if messages == [] then 0
    else
      var m := messages[|messages| - 1];
      MessagesOf(messages[..|messages| - 1], role, text) + if m.role == role && m.text == text then 1 else 0
  }

  /** Where no role contains the separator, counting by key is counting by role and text. */
  lemma {:induction false} ToldByRoleAndText(records: seq<Record>, kind: Kind, role: string, text: string)
    requires Separable(role) && forall r | r in records :: Separable(r.role)
    ensures Told(records, kind, Key(role, text)) == RecordsOf(records, kind, role, text)
  {
    if records != [] {
      var r := records[|records| - 1];
      ToldByRoleAndText(records[..|records| - 1], kind, role, text);
      if r.text.Some? && Key(r.role, r.text.value) == Key(role, text) { KeysAreDistinct(r.role, r.text.value, role, text); }
    }
  }

  lemma {:induction false} EmittedByRoleAndText(messages: seq<Message>, role: string, text: string)
    requires Separable(role) && forall m | m in messages :: Separable(m.role)
    ensures Emitted(messages, Key(role, text)) == MessagesOf(messages, role, text)
  {
    if messages != [] {
      var m := messages[|messages| - 1];
      EmittedByRoleAndText(messages[..|messages| - 1], role, text);
      if KeyOf(m) == Key(role, text) { KeysAreDistinct(m.role, m.text, role, text); }
    }
  }

  /** What is emitted of a role and text: as often as the more talkative of items and events has it, and once more for
      every other record of it. */
  ghost predicate CountsRight(messages: seq<Message>, records: seq<Record>, role: string, text: string) {
    MessagesOf(messages, role, text) ==
      Max(RecordsOf(records, ResponseItem, role, text), RecordsOf(records, EventMessage, role, text))
      + RecordsOf(records, Other, role, text)
  }

  function Min(a: nat, b: nat): nat { if a < b then a else b }

  function Max(a: nat, b: nat): nat { if a < b then b else a }

  lemma {:induction false} ToldGrows(records: seq<Record>, n: nat, kind: Kind, key: string)
    requires n < |records|
    ensures Told(records[..n + 1], kind, key) == Told(records[..n], kind, key) + if Tells(records[n], kind, key) then 1 else 0
  {
    assert records[..n + 1][..n] == records[..n];
  }

  lemma EmittedGrows(messages: seq<Message>, m: Message, key: string)
    ensures Emitted(messages + [m], key) == Emitted(messages, key) + if KeyOf(m) == key then 1 else 0
  {
    assert (messages + [m])[..|messages|] == messages;
  }

  /** In record order, each message from a record of its own. */
  predicate InRecordOrder(messages: seq<Message>, records: seq<Record>) {
    && (forall i, j | 0 <= i < j < |messages| :: messages[i].recordIndex < messages[j].recordIndex)
    && (forall i | 0 <= i < |messages| ::
          && messages[i].recordIndex < |records|
          && records[messages[i].recordIndex].text == Some(messages[i].text)
          && records[messages[i].recordIndex].role == messages[i].role)
  }

  /** The messages before the policy was applied to their texts. */
  function Plain(messages: seq<Message>, records: seq<Record>): seq<Message>
    requires forall i | 0 <= i < |messages| ::
               messages[i].recordIndex < |records| && records[messages[i].recordIndex].text.Some?
  {
    seq(|messages|, i requires 0 <= i < |messages| => messages[i].(text := records[messages[i].recordIndex].text.value))
  }

  /** Each message is the plain one with the policy applied to its text, and a change of any is noted. */
  predicate Cleaned(messages: seq<Message>, redacted: bool, plain: seq<Message>, policy: Policy) {
    && |messages| == |plain|
    && (forall i | 0 <= i < |plain| :: messages[i] == plain[i].(text := policy(plain[i].text).0))
    && (redacted <==> exists i | 0 <= i < |plain| :: policy(plain[i].text).1)
  }

  lemma CleanedOneMore(messages: seq<Message>, redacted: bool, plain: seq<Message>, policy: Policy, m: Message)
    requires Cleaned(messages, redacted, plain, policy)
    ensures Cleaned(messages + [m.(text := policy(m.text).0)], redacted || policy(m.text).1, plain + [m], policy)
  {
    var next := plain + [m];
    assert next[|plain|] == m && forall i | 0 <= i < |plain| :: next[i] == plain[i];
  }

  function Count(m: map<string, nat>, key: string): nat { if key in m then m[key] else 0 }

  /** How often each key is told by response items. */
  method CountCanonical(records: seq<Record>) returns (canonical: map<string, nat>)
    ensures forall key :: Count(canonical, key) == Told(records, ResponseItem, key)
  {
    canonical := map[];
    for i := 0 to |records|
      invariant forall key :: Count(canonical, key) == Told(records[..i], ResponseItem, key)
    {
      forall key ensures Told(records[..i + 1], ResponseItem, key)
          == Told(records[..i], ResponseItem, key) + if Tells(records[i], ResponseItem, key) then 1 else 0 {
        ToldGrows(records, i, ResponseItem, key);
      }
      if records[i].kind == ResponseItem && records[i].text.Some? {
        var key := Key(records[i].role, records[i].text.value);
        canonical := canonical[key := Count(canonical, key) + 1];
      }
    }
    assert records[..|records|] == records;
  }

  /** After the first n records: events are held back against all response items of the key, wherever they are. */
  ghost predicate Balanced(records: seq<Record>, n: nat, canonical: map<string, nat>, messages: seq<Message>, key: string)
    requires n <= |records|
  {
    var events, items := Told(records[..n], EventMessage, key), Told(records, ResponseItem, key);
    && Count(canonical, key) == items - Min(events, items)
    && Emitted(messages, key) == Told(records[..n], ResponseItem, key) + Told(records[..n], Other, key)
                                 + (events - Min(events, items))
  }

  /** The messages of a Codex transcript, counted as they are told and emitted as the policy leaves them. */
  method Messages(records: seq<Record>, policy: Policy) returns (messages: seq<Message>, redacted: bool)
    ensures forall i | 0 <= i < |messages| ::
              messages[i].recordIndex < |records| && records[messages[i].recordIndex].text.Some?
    ensures InRecordOrder(Plain(messages, records), records)
    ensures Cleaned(messages, redacted, Plain(messages, records), policy)
    ensures forall key :: Emitted(Plain(messages, records), key) ==
              Max(Told(records, ResponseItem, key), Told(records, EventMessage, key)) + Told(records, Other, key)
    ensures forall i | 0 <= i < |records| :: Gives(messages, i) <==> Kept(records, i)
    ensures (forall r | r in records :: Separable(r.role)) ==>
              forall role, text | Separable(role) :: CountsRight(Plain(messages, records), records, role, text)
  {
    hide Balanced, Told, Emitted, Max, Cleaned, CountsRight, Key, Gives, Kept;
    var canonical: map<string, nat> := CountCanonical(records);
    messages, redacted := [], false;
    ghost var plain: seq<Message> := [];
    NothingCleaned(policy);
    NothingGiven();
    forall key ensures Balanced(records, 0, canonical, plain, key) { StartsBalanced(records, canonical, key); }
    for i := 0 to |records|
      invariant forall j | 0 <= j < |plain| :: plain[j].recordIndex < i
      invariant InRecordOrder(plain, records) && Cleaned(messages, redacted, plain, policy)
      invariant forall key :: Balanced(records, i, canonical, plain, key)
      invariant forall j | 0 <= j < |records| :: Gives(messages, j) <==> j < i && Kept(records, j)
    {
      var r := records[i];
      ghost var was: map<string, nat>, before := canonical, plain;
      ghost var n := i + 1;
      if r.text.None? {
        NothingKept(records, i);
      } else {
        var key := Key(r.role, r.text.value);
        KeptIff(records, i, canonical, plain);
        if r.kind == EventMessage && Count(canonical, key) > 0 {
          var left: nat := Count(canonical, key) - 1;
          canonical := canonical[key := left];
        } else {
          var cleaned := policy(r.text.value);
          CleanedOneMore(messages, redacted, plain, policy, Message(r.role, r.text.value, i));
          redacted := redacted || cleaned.1;
          GivesStay(messages, Message(r.role, cleaned.0, i));
          messages := messages + [Message(r.role, cleaned.0, i)];
          plain := plain + [Message(r.role, r.text.value, i)];
        }
      }
      forall key ensures Balanced(records, n, canonical, plain, key) {
        StepBalances(records, i, was, before, canonical, plain, key);
      }
    }
    PlainOfCleaned(messages, redacted, plain, policy, records);
    forall key ensures Emitted(plain, key) ==
      Max(Told(records, ResponseItem, key), Told(records, EventMessage, key)) + Told(records, Other, key)
    {
      EndsBalanced(records, canonical, plain, key);
    }
    forall role, text | Separable(role) && forall r | r in records :: Separable(r.role)
      ensures CountsRight(plain, records, role, text)
    {
      CountedByRoleAndText(plain, records, role, text);
    }
  }

  lemma CountedByRoleAndText(messages: seq<Message>, records: seq<Record>, role: string, text: string)
    requires InRecordOrder(messages, records) && Separable(role) && forall r | r in records :: Separable(r.role)
    requires var key := Key(role, text);
             Emitted(messages, key) ==
               Max(Told(records, ResponseItem, key), Told(records, EventMessage, key)) + Told(records, Other, key)
    ensures CountsRight(messages, records, role, text)
  {
    forall m | m in messages ensures Separable(m.role) {
      var i :| 0 <= i < |messages| && messages[i] == m;
      assert records[m.recordIndex] in records;
    }
    EmittedByRoleAndText(messages, role, text);
    ToldByRoleAndText(records, ResponseItem, role, text);
    ToldByRoleAndText(records, EventMessage, role, text);
    ToldByRoleAndText(records, Other, role, text);
  }

  /** A role that contains the separator can take another's message away: an event is held back for an item of another
      role with another text. */
  method CollidingKeys(policy: Policy) returns (records: seq<Record>, messages: seq<Message>)
    ensures RecordsOf(records, EventMessage, "user", "x\0y") == 1 && RecordsOf(records, ResponseItem, "user", "x\0y") == 0
    ensures forall i | 0 <= i < |messages| ::
              messages[i].recordIndex < |records| && records[messages[i].recordIndex].text.Some?
    ensures MessagesOf(Plain(messages, records), "user", "x\0y") == 0
  {
    hide Told, Emitted, RecordsOf, MessagesOf, CountsRight, Key;
    var item, event := Record(ResponseItem, "user\0x", Some("y")), Record(EventMessage, "user", Some("x\0y"));
    records := [item, event];
    var redacted: bool;
    messages, redacted := Messages(records, policy);
    OneKey();
    ToldOnce(records, item, event);
    assert Kept(records, 0) && Gives(messages, 0);
    var j :| 0 <= j < |messages| && messages[j].recordIndex == 0;
    assert Plain(messages, records)[j].recordIndex == 0;
    OnlyTheItem(Plain(messages, records), records);
  }

  lemma ToldOnce(records: seq<Record>, item: Record, event: Record)
    requires item == Record(ResponseItem, "user\0x", Some("y")) && event == Record(EventMessage, "user", Some("x\0y"))
    requires records == [item, event]
    ensures var key := Key("user", "x\0y");
            && Told(records, ResponseItem, key) == 1 && Told(records, EventMessage, key) == 1 && Told(records, Other, key) == 0
    ensures RecordsOf(records, EventMessage, "user", "x\0y") == 1 && RecordsOf(records, ResponseItem, "user", "x\0y") == 0
  {
    OneKey();
    forall kind ensures Told(records, kind, Key("user", "x\0y")) == if kind == Other then 0 else 1 {
      ToldGrows(records, 0, kind, Key("user", "x\0y"));
      ToldGrows(records, 1, kind, Key("user", "x\0y"));
      assert records[..2] == records;
    }
    forall kind ensures RecordsOf(records, kind, "user", "x\0y") == if kind == EventMessage then 1 else 0 {
      assert records[..1] == [item] && [item][..0] == [];
      assert RecordsOf([item], kind, "user", "x\0y") == 0;
    }
  }

  lemma OneKey()
    ensures Key("user\0x", "y") == Key("user", "x\0y")
  {
  }

  /** Of two records with one key that give one message, the first gives it. */
  lemma OnlyTheItem(messages: seq<Message>, records: seq<Record>)
    requires records == [Record(ResponseItem, "user\0x", Some("y")), Record(EventMessage, "user", Some("x\0y"))]
    requires InRecordOrder(messages, records) && Gives(messages, 0) && Emitted(messages, Key("user", "x\0y")) == 1
    ensures MessagesOf(messages, "user", "x\0y") == 0
  {
    OneKey();
    assert messages[..0] == [] && messages[0].role == "user\0x";
  }

  /** The record has a message of its own. */
  predicate Gives(messages: seq<Message>, i: nat) { exists j | 0 <= j < |messages| :: messages[j].recordIndex == i }

  /** Every record with a text gives a message, but for the first events of a key, as many as response items tell it. */
  predicate Kept(records: seq<Record>, i: nat)
    requires i < |records|
  {
    var r := records[i];
    r.text.Some? && (r.kind == EventMessage ==>
      var key := Key(r.role, r.text.value);
      Told(records[..i], EventMessage, key) >= Told(records, ResponseItem, key))
  }

  lemma NothingKept(records: seq<Record>, i: nat)
    requires i < |records| && records[i].text.None?
    ensures !Kept(records, i)
  {
  }

  lemma KeptIff(records: seq<Record>, i: nat, canonical: map<string, nat>, plain: seq<Message>)
    requires i < |records| && records[i].text.Some?
    requires Balanced(records, i, canonical, plain, Key(records[i].role, records[i].text.value))
    ensures Kept(records, i) <==>
              !(records[i].kind == EventMessage && Count(canonical, Key(records[i].role, records[i].text.value)) > 0)
  {
  }

  lemma NothingGiven()
    ensures forall i :: !Gives([], i)
  {
  }

  lemma GivesStay(messages: seq<Message>, m: Message)
    ensures forall i :: Gives(messages + [m], i) <==> Gives(messages, i) || i == m.recordIndex
  {
    assert (messages + [m])[|messages|] == m;
    forall i | Gives(messages, i) ensures Gives(messages + [m], i) {
      var j :| 0 <= j < |messages| && messages[j].recordIndex == i;
      assert (messages + [m])[j].recordIndex == i;
    }
  }

  lemma NothingCleaned(policy: Policy)
    ensures Cleaned([], false, [], policy)
  {
  }

  lemma PlainOfCleaned(messages: seq<Message>, redacted: bool, plain: seq<Message>, policy: Policy, records: seq<Record>)
    requires Cleaned(messages, redacted, plain, policy) && InRecordOrder(plain, records)
    ensures forall i | 0 <= i < |messages| ::
              messages[i].recordIndex < |records| && records[messages[i].recordIndex].text.Some?
    ensures Plain(messages, records) == plain
  {
  }

  lemma StartsBalanced(records: seq<Record>, canonical: map<string, nat>, key: string)
    requires Count(canonical, key) == Told(records, ResponseItem, key)
    ensures Balanced(records, 0, canonical, [], key)
  {
  }

  lemma EndsBalanced(records: seq<Record>, canonical: map<string, nat>, messages: seq<Message>, key: string)
    requires Balanced(records, |records|, canonical, messages, key)
    ensures Emitted(messages, key) ==
              Max(Told(records, ResponseItem, key), Told(records, EventMessage, key)) + Told(records, Other, key)
  {
    assert records[..|records|] == records;
  }

  lemma StepBalances(records: seq<Record>, i: nat, was: map<string, nat>, before: seq<Message>,
                     canonical: map<string, nat>, messages: seq<Message>, key: string)
    requires i < |records| && Balanced(records, i, was, before, key)
    requires var r := records[i];
             if r.text.None? then canonical == was && messages == before
             else
               var k := Key(r.role, r.text.value);
               if r.kind == EventMessage && Count(was, k) > 0
               then canonical == was[k := Count(was, k) - 1] && messages == before
               else canonical == was && messages == before + [Message(r.role, r.text.value, i)]
    ensures Balanced(records, i + 1, canonical, messages, key)
  {
    ToldGrows(records, i, ResponseItem, key);
    ToldGrows(records, i, EventMessage, key);
    ToldGrows(records, i, Other, key);
    if records[i].text.Some? { EmittedGrows(before, Message(records[i].role, records[i].text.value, i), key); }
  }
}
