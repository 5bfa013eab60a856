/**
 * PejRPC::Client of lib/pej-rpc.rb, the earlier unencrypted variant: the
 * request object travels as Base64 of its JSON text and the response body is
 * parsed as JSON directly.
 */
module LegacyRpc {
  import opened Wrappers
  import opened Words
  import opened Crypto
  import opened Json
  import opened JsonRpc
  import Exceptions

  datatype Error =
    | ConnectionFailed(response: Exceptions.Response) // raise ConnectionError.new(response)
    | BadJson                                         // JSON.parse raises

  /**
   * The request body: the Base64 of the request object's JSON text and
   * nothing else, so decoding and parsing it gives the object back.
   */
  function RequestBody(json: JsonCodec, base64: Base64, name: string, params: Json): (body: Bytes)
    ensures JsonSound(json) && Base64Sound(base64) ==>
      json.parse(base64.decode(body)) == Some(JObject(RequestObject(name, params)))
  {
    base64.encode(json.generate(JObject(RequestObject(name, params))))
  }

  class Client {

    /** Client.new(url); the URL goes to the transport. */
    constructor ()
    {
    }

    /**
     * post(method, params): send the encoded request object, raise
     * ConnectionError for a status outside 200...400 without reading the
     * body, and otherwise parse the body as JSON.
     */
    method Post(json: JsonCodec, base64: Base64, exchange: Bytes -> HttpResponse, name: string, params: Json)
      returns (r: Result<Json, Error>)
      ensures var response := exchange(RequestBody(json, base64, name, params));
        if !Accepted(Status(response)) then r == Failure(ConnectionFailed(Raised(response)))
        else r == match json.parse(response.body) case None => Failure(BadJson) case Some(v) => Success(v)
    {
      var requestObject := map["method" := JString(name), "jsonrpc" := JString(Version)];
      if Truthy(params) {
        requestObject := requestObject["params" := params];
      }
      assert requestObject == RequestObject(name, params);
      var response := exchange(base64.encode(json.generate(JObject(requestObject))));
      if !Accepted(Status(response)) {
        return Failure(ConnectionFailed(Raised(response)));
      }
      var responseObject := json.parse(response.body);
      if responseObject.None? {
        return Failure(BadJson);
      }
      r := Success(responseObject.value);
    }
  }
}
