/**
 * PejRPC::Client and PejRPC::Server of lib/pejrpc.rb: JSON-RPC calls carried
 * in the encrypted envelope. The HTTP exchange is a function from the
 * request body and headers to the response.
 */
module Rpc {
  import opened Wrappers
  import opened Words
  import opened Crypto
  import opened Json
  import opened JsonRpc
  import Envelope
  import Exceptions

  datatype Error =
    | EnvelopeFailed(cause: Envelope.Error)          // raised while sealing or opening
    | ConnectionFailed(response: Exceptions.Response) // raise ConnectionError, response
    | NotAnObject                                    // the request is not a JSON object
    | DelegateFailed                                 // delegate.send raised

  function FromEnvelope<T>(r: Result<T, Envelope.Error>): (l: Result<T, Error>)
    ensures l.Success? <==> r.Success?
  {
    match r
    case Success(v) => Success(v)
    case Failure(e) => Failure(EnvelopeFailed(e))
  }

  /** Hash#[]: the value under a key, nil when there is none. */
  function Field(fields: map<string, Json>, name: string): Json {
    if name in fields then fields[name] else JNull
  }

  class Client {
    const key: Envelope.Key

    /** Client.new(url, pem); the URL goes to the transport. */
    constructor (key: Envelope.Key)
      ensures this.key == key
    {
      this.key := key;
    }

    /**
     * post(method, params): seal the request object, send it, and open the
     * response only when its status is in 200...400; any other status raises
     * ConnectionError with the response, whatever its body and headers.
     */
    method Post(p: Primitives, json: JsonCodec, exchange: (Bytes, Envelope.Header) -> HttpResponse,
                name: string, params: Json, randomKey: Bytes, randomIv: Bytes) returns (r: Result<Json, Error>)
      requires |randomKey| == KeyLength && |randomIv| == IvLength
      ensures var sealed := key.SealedObject(p, json, JObject(RequestObject(name, params)), randomKey, randomIv);
        if sealed.Failure? then r == Failure(EnvelopeFailed(sealed.error))
        else
          var response := exchange(sealed.value.0, sealed.value.1);
          if !Accepted(Status(response)) then r == Failure(ConnectionFailed(Raised(response)))
          else r == FromEnvelope(key.OpenedObject(p, json, response.body, response.header))
    {
      var requestObject := map["method" := JString(name), "jsonrpc" := JString(Version)];
      if Truthy(params) {
        requestObject := requestObject["params" := params];
      }
      assert requestObject == RequestObject(name, params);
      var sealed := key.BodyAndHeaderFromObject(p, json, JObject(requestObject), randomKey, randomIv);
      if sealed.Failure? {
        return Failure(EnvelopeFailed(sealed.error));
      }
      var response := exchange(sealed.value.0, sealed.value.1);
      if !Accepted(Status(response)) {
        return Failure(ConnectionFailed(Raised(response)));
      }
      var responseObject := key.ObjectFromBodyAndHeader(p, json, response.body, response.header);
      r := FromEnvelope(responseObject);
    }
  }

  class Server {
    const key: Envelope.Key

    /** Server.new(delegate, pem); the delegate is passed to Handle. */
    constructor (key: Envelope.Key)
      ensures this.key == key
    {
      this.key := key;
    }

    /**
     * handle(request): open the request object, send its 'method' and
     * 'params' entries (nil when absent) to the delegate, and seal the
     * delegate's answer.
     */
    function Handled(p: Primitives, json: JsonCodec, delegate: (Json, Json) -> Option<Json>,
                     body: Bytes, header: Envelope.Header, randomKey: Bytes, randomIv: Bytes): (r: Result<(Bytes, Envelope.Header), Error>)
      requires |randomKey| == KeyLength && |randomIv| == IvLength
      ensures r.Success? ==> key.OpenedObject(p, json, body, header).Success?
      ensures r.Success? ==> key.OpenedObject(p, json, body, header).value.JObject?
      ensures r.Success? ==>
        var fields := key.OpenedObject(p, json, body, header).value.fields;
        delegate(Field(fields, "method"), Field(fields, "params")).Some?
    {
      var request := key.OpenedObject(p, json, body, header);
      if request.Failure? then Failure(EnvelopeFailed(request.error))
      else if !request.value.JObject? then Failure(NotAnObject)
      else
        var fields := request.value.fields;
        var answer := delegate(Field(fields, "method"), Field(fields, "params"));
        if answer.None? then Failure(DelegateFailed)
        else FromEnvelope(key.SealedObject(p, json, answer.value, randomKey, randomIv))
    }

    method Handle(p: Primitives, json: JsonCodec, delegate: (Json, Json) -> Option<Json>,
                  body: Bytes, header: Envelope.Header, randomKey: Bytes, randomIv: Bytes) returns (r: Result<(Bytes, Envelope.Header), Error>)
      requires |randomKey| == KeyLength && |randomIv| == IvLength
      ensures r == Handled(p, json, delegate, body, header, randomKey, randomIv)
    {
      var request := key.ObjectFromBodyAndHeader(p, json, body, header);
      if request.Failure? {
        return Failure(EnvelopeFailed(request.error));
      }
      if !request.value.JObject? {
        return Failure(NotAnObject);
      }
      var answer := delegate(Field(request.value.fields, "method"), Field(request.value.fields, "params"));
      if answer.None? {
        return Failure(DelegateFailed);
      }
      var sealed := key.BodyAndHeaderFromObject(p, json, answer.value, randomKey, randomIv);
      r := FromEnvelope(sealed);
    }
  }

  /**
   * A call between a client and a server holding the two halves of one key
   * pair: the server hands the delegate the client's method name and its
   * params (nil when the client sent none), and the client opens the
   * server's reply to exactly the delegate's answer.
   */
  lemma CallReachesDelegate(client: Client, server: Server, p: Primitives, json: JsonCodec,
                            delegate: (Json, Json) -> Option<Json>, name: string, params: Json,
                            clientKey: Bytes, clientIv: Bytes, serverKey: Bytes, serverIv: Bytes)
    requires Sound(p) && JsonSound(json)
    requires Halves(client.key.rsa, server.key.rsa)
    requires client.key.rsa.modulusBytes % 4 == 0 && KeyLength <= MaxMessage(client.key.rsa)
    requires |clientKey| == KeyLength && |clientIv| == IvLength && |serverKey| == KeyLength && |serverIv| == IvLength
    ensures client.key.SealedObject(p, json, JObject(RequestObject(name, params)), clientKey, clientIv).Success?
    ensures var request := client.key.SealedObject(p, json, JObject(RequestObject(name, params)), clientKey, clientIv).value;
      var reply := server.Handled(p, json, delegate, request.0, request.1, serverKey, serverIv);
      var answer := delegate(JString(name), if Truthy(params) then params else JNull);
      (answer.None? ==> reply == Failure(DelegateFailed)) &&
      (answer.Some? ==> reply.Success? && client.key.OpenedObject(p, json, reply.value.0, reply.value.1) == Success(answer.value))
  {
    var requestObject := JObject(RequestObject(name, params));
    Envelope.SealOpenObject(client.key, server.key, p, json, requestObject, clientKey, clientIv);
    var answer := delegate(JString(name), if Truthy(params) then params else JNull);
    if answer.Some? {
      Envelope.SealOpenObject(server.key, client.key, p, json, answer.value, serverKey, serverIv);
    }
  }
}
