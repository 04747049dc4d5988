/** The conversation transcript and the grammar that model providers require of
    it (agent/llm/llm.go, agent/runtime/session.go). */
module Transcript {

  datatype ToolCall = ToolCall(id: string, name: string, arguments: string)

  /** One constructor per role of llm.Message, with the fields the role uses. */
  datatype Message =
    | System(content: string)
    | User(content: string)
    | Assistant(content: string, toolCalls: seq<ToolCall>)
    | Tool(name: string, toolCallID: string, content: string)

  /** The results answer the calls one for one, in order. */
  ghost predicate Answers(calls: seq<ToolCall>, results: seq<Message>) {
    && |results| == |calls|
    && forall i :: 0 <= i < |calls| ==>
         results[i].Tool? && results[i].toolCallID == calls[i].id && results[i].name == calls[i].name
  }

  /** (user | assistant text | assistant with calls c1..ck followed by exactly
      their k results in order)* */
  ghost predicate WellFormed(ms: seq<Message>) {
    if ms == [] then true else
    match ms[0]
    case User(_) => WellFormed(ms[1..])
    case Assistant(_, calls) =>
      var k := |calls|;
      |ms| > k && Answers(calls, ms[1..k + 1]) && WellFormed(ms[k + 1..])
    case _ => false
  }

  lemma {:induction false} Append(a: seq<Message>, b: seq<Message>)
    requires WellFormed(a) && WellFormed(b)
    ensures WellFormed(a + b)
  {
    if a == [] {
      assert a + b == b;
    } else {
      var n := if a[0].User? then 1 else |a[0].toolCalls| + 1;
      SliceOfSum(a, b, n);
      Append(a[n..], b);
    }
  }

  lemma SliceOfSum(a: seq<Message>, b: seq<Message>, n: nat)
    requires 1 <= n <= |a|
    ensures (a + b)[0] == a[0] && (a + b)[1..n] == a[1..n] && (a + b)[n..] == a[n..] + b
  {
  }

  lemma Assoc<T>(a: seq<T>, b: seq<T>, c: seq<T>)
    ensures (a + b) + c == a + (b + c)
  {
  }

  lemma AddNothing<T>(a: seq<T>)
    ensures a + [] == a
  {
  }

  lemma Longer<T>(a: seq<T>, b: seq<T>)
    ensures a <= a + b
  {
  }

  lemma NextPrefix<T>(a: seq<T>, i: nat)
    requires i < |a|
    ensures a[..i] + [a[i]] == a[..i + 1]
  {
  }

  lemma AllOf<T>(a: seq<T>)
    ensures a[..|a|] == a
  {
  }

  lemma Rejoin<T>(a: seq<T>, lo: nat, n: nat)
    requires lo <= n <= |a|
    ensures a[lo..n] + a[n..] == a[lo..]
  {
  }

  lemma AppendUser(a: seq<Message>, content: string)
    requires WellFormed(a)
    ensures WellFormed(a + [User(content)])
  {
    Append(a, [User(content)]);
  }

  lemma AppendText(a: seq<Message>, content: string)
    requires WellFormed(a)
    ensures WellFormed(a + [Assistant(content, [])])
  {
    assert WellFormed([Assistant(content, [])]);
    Append(a, [Assistant(content, [])]);
  }

  /** One assistant turn with calls, and the results that answer them. */
  lemma AppendCalls(a: seq<Message>, content: string, calls: seq<ToolCall>, results: seq<Message>)
    requires WellFormed(a) && Answers(calls, results)
    ensures WellFormed(a + ([Assistant(content, calls)] + results))
  {
    var b := [Assistant(content, calls)] + results;
    assert b[1..|calls| + 1] == results && b[|calls| + 1..] == [];
    Append(a, b);
  }
}
