/** The body of the recent-messages endpoint: the log's newest messages as a JSON array. */
module RecentMessages {
  import opened Options
  import opened Decimals
  import opened Bytes
  import opened RecordFormat
  import opened Ring
  import opened Json
  import StorageLog

  /** A payload's bytes as the characters of a std::string. */
  function TextOf(bytes: seq<byte>): (s: string)
    ensures |s| == |bytes|
  {
    seq(|bytes|, i requires 0 <= i < |bytes| => bytes[i] as char)
  }

  /** One message as an object. */
  function Tree(m: Message): Value {
    Obj([Member("offset", Num(m.offset)), Member("timestamp_ns", Num(m.timestampNs)),
         Member("payload_length", Num(|m.payload|)), Member("payload", Str(TextOf(m.payload)))])
  }

  function Trees(messages: seq<Message>): (r: seq<Value>)
    ensures |r| == |messages|
  {
    seq(|messages|, i requires 0 <= i < |messages| => Tree(messages[i]))
  }

  predicate IsByte(c: char) { c as int < 256 }

  /** Reading an object back; its fields in the order they were written. */
  function Untree(v: Value): Option<Message> {
    if v.Obj? && |v.members| == 4
       && v.members[0].key == "offset" && v.members[0].value.Num?
       && v.members[1].key == "timestamp_ns" && v.members[1].value.Num?
       && v.members[2].key == "payload_length" && v.members[2].value.Num?
       && v.members[3].key == "payload" && v.members[3].value.Str?
       && (forall i :: 0 <= i < |v.members[3].value.text| ==> IsByte(v.members[3].value.text[i]))
       && v.members[2].value.n == |v.members[3].value.text|
    then
      var text := v.members[3].value.text;
      Some(Message(v.members[0].value.n, v.members[1].value.n,
                   seq(|text|, i requires 0 <= i < |text| => (assert IsByte(text[i]); text[i] as byte))))
    else None
  }

  function Untrees(vs: seq<Value>): Option<seq<Message>> {
    if vs == [] then Some([])
    else
      var first, more := Untree(vs[0]), Untrees(vs[1..]);
      if first.None? || more.None? then None else Some([first.value] + more.value)
  }

  /** What a client makes of the body. */
  function DecodeBody(body: string): Option<seq<Message>> {
    match ParseText(body)
    case Some(Arr(items)) => Untrees(items)
    case _ => None
  }

  lemma UntreeTree(m: Message)
    ensures Untree(Tree(m)) == Some(m)
  {
    var v := Tree(m);
    var back := Untree(v).value.payload;
    assert |back| == |m.payload| && forall i :: 0 <= i < |back| ==> back[i] == m.payload[i];
    assert back == m.payload;
  }

  lemma {:induction false} UntreesTrees(messages: seq<Message>)
    ensures Untrees(Trees(messages)) == Some(messages)
    decreases |messages|
  {
    hide Tree, Untree;
    if messages != [] {
      UntreeTree(messages[0]);
      UntreesTrees(messages[1..]);
      assert Trees(messages)[1..] == Trees(messages[1..]);
      assert [messages[0]] + messages[1..] == messages;
    }
  }

  /** The array the loop writes decodes to the messages it was given. */
  lemma BodyDecodes(messages: seq<Message>)
    ensures DecodeBody(Render(Arr(Trees(messages)))) == Some(messages)
  {
    hide Render, ParseText, Untrees, Trees;
    TextParses(Arr(Trees(messages)));
    UntreesTrees(messages);
  }

  // ---- The text ------------------------------------------------------------------------

  /** Characters the escaping leaves alone. */
  predicate Unescaped(s: string) { forall i :: 0 <= i < |s| ==> s[i] >= ' ' && s[i] != '\"' && s[i] != '\\' }

  lemma {:induction false} EscapePlain(s: string)
    requires Unescaped(s)
    ensures Escape(s) == s
    decreases |s|
  {
    if s != "" {
      EscapePlain(s[1..]);
      assert EscapeChar(s[0]) == [s[0]];
    }
  }

  lemma PlainMember(key: string, value: Value)
    requires Unescaped(key)
    ensures RenderMember(Member(key, value)) == "\"" + key + "\":" + Render(value)
  {
    hide Render, Escape;
    EscapePlain(key);
  }

  lemma TailCons(m: Member, rest: seq<Member>)
    ensures MembersTail([m] + rest) == "," + RenderMember(m) + MembersTail(rest)
  {
    hide RenderMember;
    assert ([m] + rest)[1..] == rest;
  }

  lemma ObjectCons(m: Member, rest: seq<Member>)
    ensures Render(Obj([m] + rest)) == "{" + (RenderMember(m) + MembersTail(rest)) && MembersTail([]) == "}"
  {
    hide RenderMember;
    assert ([m] + rest)[1..] == rest;
  }

  lemma FourMembers(a: Member, b: Member, c: Member, d: Member)
    ensures Render(Obj([a, b, c, d]))
            == "{" + RenderMember(a) + "," + RenderMember(b) + "," + RenderMember(c) + "," + RenderMember(d) + "}"
  {
    hide Render, RenderMember, MembersTail;
    assert [a, b, c, d] == [a] + [b, c, d] && [b, c, d] == [b] + [c, d] && [c, d] == [c] + [d] && [d] == [d] + [];
    ObjectCons(a, [b, c, d]);
    TailCons(b, [c, d]);
    TailCons(c, [d]);
    TailCons(d, []);
    Flattened("{", RenderMember(a), ",", RenderMember(b), RenderMember(c), RenderMember(d), "}");
  }

  lemma Flattened(o: string, a: string, s: string, b: string, c: string, d: string, e: string)
    ensures o + (a + (s + b + (s + c + (s + d + e)))) == o + a + s + b + s + c + s + d + e
  {}

  /** The pieces of an object, however they are grouped. */
  lemma Spelling(open: string, k: string, a: string, l: string, b: string, m: string, c: string, n: string, d: string)
    ensures open + k + a + ("," + l) + b + ("," + m) + c + ("," + n + "\"") + d + "\"}"
         == open + (k + a) + "," + (l + b) + "," + (m + c) + "," + (n + ("\"" + d + "\"")) + "}"
  {
    assert "\"}" == "\"" + "}";
  }

  lemma ObjectText(m: Message, a: string, b: string, c: string, d: string)
    requires a == Decimal(m.offset) && b == Decimal(m.timestampNs) && c == Decimal(|m.payload|)
    requires d == Escape(TextOf(m.payload))
    ensures Render(Tree(m)) == "{" + ("\"offset\":" + a) + "," + ("\"timestamp_ns\":" + b)
                               + "," + ("\"payload_length\":" + c) + "," + ("\"payload\":" + ("\"" + d + "\"")) + "}"
  {
    hide Render, RenderMember, Escape, Decimal, TextOf;
    var members := Tree(m).members;
    FourMembers(members[0], members[1], members[2], members[3]);
    PlainMember("offset", Num(m.offset));
    PlainMember("timestamp_ns", Num(m.timestampNs));
    PlainMember("payload_length", Num(|m.payload|));
    PlainMember("payload", Str(TextOf(m.payload)));
    Leaves(m.offset, TextOf(m.payload));
    Leaves(m.timestampNs, "");
    Leaves(|m.payload|, "");
    QuotedKeys();
  }

  lemma QuotedKeys()
    ensures "\"" + "offset" + "\":" == "\"offset\":" && "\"" + "timestamp_ns" + "\":" == "\"timestamp_ns\":"
    ensures "\"" + "payload_length" + "\":" == "\"payload_length\":" && "\"" + "payload" + "\":" == "\"payload\":"
  {}

  lemma Openings()
    ensures "{" + "\"offset\":" == "{\"offset\":" && "," + "\"timestamp_ns\":" == ",\"timestamp_ns\":"
    ensures "," + "\"payload_length\":" == ",\"payload_length\":" && "," + "\"payload\":" + "\"" == ",\"payload\":\""
  {}

  /** The object of one message, member by member. */
  method ObjectJson(m: Message) returns (text: string)
    ensures text == Render(Tree(m))
  {
    hide Render, RenderMember, Escape, Decimal, TextOf, Tree;
    var escaped := JsonEscape(TextOf(m.payload));
    var offset, timestamp, length := Decimal(m.offset), Decimal(m.timestampNs), Decimal(|m.payload|);
    text := "{\"offset\":" + offset + ",\"timestamp_ns\":" + timestamp
            + ",\"payload_length\":" + length + ",\"payload\":\"" + escaped + "\"}";
    ObjectText(m, offset, timestamp, length, escaped);
    Spelling("{", "\"offset\":", offset, "\"timestamp_ns\":", timestamp, "\"payload_length\":", length,
             "\"payload\":", escaped);
    Openings();
  }

  lemma Leaves(n: nat, text: string)
    ensures Render(Num(n)) == Decimal(n) && Render(Str(text)) == "\"" + Escape(text) + "\""
  {}

  /** What is still to be written from item i on. */
  function Rest(items: seq<Value>, i: nat): string
    requires i <= |items|
  {
    if i == 0 then RenderItems(items) else ItemsTail(items[i..])
  }

  lemma RestStep(items: seq<Value>, i: nat)
    requires i < |items|
    ensures Rest(items, i) == (if i == 0 then "" else ",") + Render(items[i]) + Rest(items, i + 1)
  {
    hide Render;
    assert items[i..][1..] == items[i + 1..];
  }

  /** `recent_messages_json`, the loop over the messages. */
  method MessagesJson(messages: seq<Message>) returns (json: string)
    ensures json == Render(Arr(Trees(messages)))
    ensures DecodeBody(json) == Some(messages)
  {
    hide Render, Rest, Tree, DecodeBody;
    ghost var items := Trees(messages);
    Whole(items);
    json := "[";
    var first := true;
    for i := 0 to |messages|
      invariant first == (i == 0)
      invariant json + Rest(items, i) == Render(Arr(items))
    {
      RestStep(items, i);
      ghost var before := json;
      var text := ObjectJson(messages[i]);
      if !first { json := json + ","; }
      first := false;
      json := json + text;
      Regroup(before, if i == 0 then "" else ",", text, Rest(items, i + 1));
    }
    json := json + "]";
    BodyDecodes(messages);
  }

  lemma Regroup(a: string, b: string, c: string, d: string)
    ensures a + (b + c + d) == (a + b + c) + d && a + "" == a
  {}

  lemma Whole(items: seq<Value>)
    ensures "[" + Rest(items, 0) == Render(Arr(items)) && Rest(items, |items|) == "]"
  {}

  /** Whatever the log has been through, the body decodes to its newest messages, oldest first. */
  method RecentMessagesJson(log: StorageLog.MemoryMappedLog, count: nat) returns (json: string)
    requires log.Valid()
    ensures DecodeBody(json) == Some(Last(log.View().history, Min(count, log.recent.entries.Length)))
  {
    var messages := log.GetRecent(count);
    json := MessagesJson(messages);
  }
}
