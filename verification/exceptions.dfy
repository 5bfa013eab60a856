/** PejRPC::ConnectionError: raised with the HTTP response when a call is answered with a failing status. */
module Exceptions {
  import opened Wrappers
  import opened RubyStrings

  /**
   * What a response answers when ConnectionError asks it for an attribute:
   * it has no such method, it answers nil, or it answers a string.
   */
  datatype Answer = NoMethod | Nil | Text(value: string)

  /** What ConnectionError asks of its response: the code and the message. */
  datatype Response = Response(code: Answer, message: Answer)

  const Opening: string := "Failed."

  /** String interpolation of an answer: nil shows as the empty string. */
  function Interpolated(a: Answer): string {
    if a.Text? then a.value else ""
  }

  /** " Response code <code>." when the response answers code. */
  function CodeClause(response: Response): string {
    if response.code.NoMethod? then "" else " Response code " + Interpolated(response.code) + "."
  }

  /** " <message, stripped>." when the response answers a string message. */
  function MessageClause(response: Response): string {
    if response.message.Text? then " " + Strip(response.message.value) + "." else ""
  }

  /** Where each of three concatenated strings sits in their concatenation. */
  lemma ThreeParts(a: string, b: string, c: string, s: string)
    requires s == a + b + c
    ensures |s| == |a| + |b| + |c|
    ensures s[..|a|] == a && s[|a| .. |a| + |b|] == b && s[|s| - |c| ..] == c
  {
  }

  /**
   * The text to_s returns, or None where to_s raises: a message answered as
   * nil has no `strip`. Otherwise "Failed.", then " Response code <code>."
   * when the response answers code, then " <message, stripped>." when it
   * answers a message, and nothing else.
   */
  function Message(response: Response): (r: Option<string>)
    ensures r.None? <==> response.message.Nil?
    ensures r.Some? ==> |r.value| >= |Opening| && r.value[..|Opening|] == Opening
    ensures r.Some? ==> (|r.value| == |Opening|
      + (if response.code.NoMethod? then 0 else |" Response code "| + |Interpolated(response.code)| + 1)
      + (if response.message.Text? then 1 + |Strip(response.message.value)| + 1 else 0))
    ensures r.Some? && !response.code.NoMethod? ==>
      r.value[|Opening| .. |Opening| + |" Response code "| + |Interpolated(response.code)| + 1]
        == " Response code " + Interpolated(response.code) + "."
    ensures r.Some? && response.message.Text? ==>
      r.value[|r.value| - |Strip(response.message.value)| - 2 ..] == " " + Strip(response.message.value) + "."
  {
    if response.message.Nil? then None
    else
      var s := Opening + CodeClause(response) + MessageClause(response);
      ThreeParts(Opening, CodeClause(response), MessageClause(response), s);
      Some(s)
  }

  /** Regrouping the concatenation of the opening and both clauses. */
  lemma Regroup(o: string, p: string, c: string, d: string, sp: string, m: string)
    ensures o + (p + c + d) + (sp + m + d) == (o + p) + c + (d + sp) + m + d
  {
  }

  /** The opening and both clauses, spelt out as one string. */
  lemma Spelled(code: string, m: string)
    ensures Opening + (" Response code " + code + ".") + (" " + m + ".")
      == "Failed. Response code " + code + ". " + m + "."
  {
    Regroup(Opening, " Response code ", code, ".", " ", m);
    assert Opening + " Response code " == "Failed. Response code ";
    assert "." + " " == ". ";
  }

  /** With a code and a string message, the whole text of to_s. */
  lemma MessageOfTexts(code: string, message: string)
    ensures Message(Response(Text(code), Text(message)))
      == Some("Failed. Response code " + code + ". " + Strip(message) + ".")
  {
    var response := Response(Text(code), Text(message));
    assert Message(response) == Some(Opening + CodeClause(response) + MessageClause(response));
    assert CodeClause(response) == " Response code " + code + ".";
    assert MessageClause(response) == " " + Strip(message) + ".";
    Spelled(code, Strip(message));
  }

  class ConnectionError {
    const response: Response

    /** ConnectionError.new(response) keeps the response as given. */
    constructor (response: Response)
      ensures this.response == response
    {
      this.response := response;
    }

    /** to_s, appending its clauses in turn; None where `strip` raises on a nil message. */
    method ToS() returns (r: Option<string>)
      ensures r == Message(response)
    {
      var s := Opening;
      if !response.code.NoMethod? {
        s := s + (" Response code " + Interpolated(response.code) + ".");
      }
      assert s == Opening + CodeClause(response);
      if response.message.Nil? {
        return None;
      }
      if response.message.Text? {
        s := s + (" " + Strip(response.message.value) + ".");
      }
      assert s == Opening + CodeClause(response) + MessageClause(response);
      r := Some(s);
    }
  }
}
