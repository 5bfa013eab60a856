/**
 * The JSON-RPC 2.0 rules both clients share: the request object they send
 * and the HTTP status codes they accept.
 */
module JsonRpc {
  import opened Wrappers
  import opened Words
  import opened Json
  import opened RubyStrings
  import Exceptions

  const Version: string := "2.0"

  /**
   * The request object for a call: the method name as a string and jsonrpc
   * "2.0", plus params exactly when params is truthy, so params is never
   * sent as null or false (section 4 of the JSON-RPC 2.0 specification).
   */
  function RequestObject(name: string, params: Json): (obj: map<string, Json>)
    ensures obj.Keys == {"method", "jsonrpc"} + (if Truthy(params) then {"params"} else {})
    ensures obj["method"] == JString(name) && obj["jsonrpc"] == JString(Version)
    ensures "params" in obj ==> obj["params"] == params && params != JNull
  {
    var base := map["method" := JString(name), "jsonrpc" := JString(Version)];
    if Truthy(params) then base["params" := params] else base
  }

  /**
   * A Net::HTTPResponse: the status code as text, the reason phrase (None
   * when the status line has none, where Ruby answers nil), body and headers.
   */
  datatype HttpResponse = HttpResponse(code: string, message: Option<string>, body: Bytes, header: map<string, string>)

  predicate IsDecimalDigit(c: char) {
    '0' <= c <= '9'
  }

  /** String#to_i on a status code: the value of its leading decimal digits, read onto acc. */
  function DecimalPrefix(s: string, acc: nat): nat {
    if s == [] || !IsDecimalDigit(s[0]) then acc
    else DecimalPrefix(s[1..], acc * 10 + (s[0] as nat - '0' as nat))
  }

  /** A three-digit decimal numeral reads as its decimal value. */
  lemma DecimalPrefixOfThree(c: string)
    requires |c| == 3 && IsDecimalDigit(c[0]) && IsDecimalDigit(c[1]) && IsDecimalDigit(c[2])
    ensures DecimalPrefix(c, 0) == (c[0] as int - '0' as int) * 100
      + (c[1] as int - '0' as int) * 10 + (c[2] as int - '0' as int)
  {
    var d0, d1, d2 := c[0] as nat - '0' as nat, c[1] as nat - '0' as nat, c[2] as nat - '0' as nat;
    assert DecimalPrefix(c, 0) == DecimalPrefix(c[1..], d0);
    assert DecimalPrefix(c[1..], d0) == DecimalPrefix(c[2..], d0 * 10 + d1) by { assert c[1..][1..] == c[2..]; }
    assert DecimalPrefix(c[2..], d0 * 10 + d1) == DecimalPrefix(c[3..], (d0 * 10 + d1) * 10 + d2) by { assert c[2..][1..] == c[3..]; }
    assert c[3..] == [];
  }

  /**
   * response.code.to_i: the value of the code's leading decimal digits, so
   * a three-digit code reads as its decimal value and a code that does not
   * start with a digit reads as 0.
   */
  function Status(response: HttpResponse): (status: nat)
    ensures (|response.code| == 3 && IsDecimalDigit(response.code[0]) && IsDecimalDigit(response.code[1])
      && IsDecimalDigit(response.code[2])) ==>
        status == (response.code[0] as int - '0' as int) * 100
          + (response.code[1] as int - '0' as int) * 10 + (response.code[2] as int - '0' as int)
    ensures response.code == [] || !IsDecimalDigit(response.code[0]) ==> status == 0
  {
    var c := response.code;
    if |c| == 3 && IsDecimalDigit(c[0]) && IsDecimalDigit(c[1]) && IsDecimalDigit(c[2]) then
      DecimalPrefixOfThree(c);
      DecimalPrefix(c, 0)
    else DecimalPrefix(c, 0)
  }

  /**
   * `when 200...400`: the range excludes 400, so among three-digit codes
   * exactly the 2xx (success) and 3xx (redirection) classes are accepted.
   */
  predicate Accepted(status: int)
    ensures 100 <= status < 1000 ==> (Accepted(status) <==> status / 100 == 2 || status / 100 == 3)
  {
    200 <= status < 400
  }

  /**
   * The ConnectionError raised for a response. Its text names the status
   * code and the stripped reason phrase; with no reason phrase, to_s raises.
   */
  function Raised(response: HttpResponse): (e: Exceptions.Response)
    ensures Exceptions.Message(e) == if response.message.None? then None
      else Some("Failed. Response code " + response.code + ". " + Strip(response.message.value) + ".")
  {
    var e := Exceptions.Response(Exceptions.Text(response.code),
      if response.message.Some? then Exceptions.Text(response.message.value) else Exceptions.Nil);
    if response.message.Some? then
      Exceptions.MessageOfTexts(response.code, response.message.value);
      e
    else e
  }
}
