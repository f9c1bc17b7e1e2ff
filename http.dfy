/** The part of the response protocol the client relies on: the `ok` rule on
    status codes and `raise_for_status`. A reply is an input to the model. */
module Http {
  import opened PyText
  import opened Types

  /** A response as the client sees it: its status, its parsed JSON body and
      the clock ticks that passed while waiting for it. */
  datatype Response = Response(status: int, body: ResultDict, latency: nat)

  /** What the transport hands back for one GET: a response, or an exception
      raised before any response exists (connection error, closed session). */
  datatype Reply = Received(response: Response) | TransportFailure

  /** The exception `raise_for_status` raises. */
  datatype ClientResponseError = ClientResponseError(message: string)

  const StatusMessagePrefix: string := "Request failed with status code "

  /** `response.ok`. */
  predicate Ok(status: int) {
    status < 400
  }

  /** `response.raise_for_status()`: `None` when it returns normally. */
  function RaiseForStatus(status: int): (raised: Option<ClientResponseError>)
    ensures raised.None? <==> Ok(status)
    ensures raised.Some? ==> IsPrefix(StatusMessagePrefix, raised.value.message)
  {
    if !Ok(status) then Some(ClientResponseError(StatusMessagePrefix + IntText(status))) else None
  }

  /** The status can be read back from the message of the raised error. */
  lemma RaisedMessageNamesStatus(status: int)
    requires !Ok(status)
    ensures ParseInt(RaiseForStatus(status).value.message[|StatusMessagePrefix|..]) == Some(status)
  {
    var m := RaiseForStatus(status).value.message;
    assert m[|StatusMessagePrefix|..] == IntText(status);
    IntTextRoundTrip(status);
  }

  lemma SuccessStatusesPass()
    ensures RaiseForStatus(200).None? && RaiseForStatus(399).None?
    ensures RaiseForStatus(400).Some? && RaiseForStatus(500).Some?
  {
  }
}
