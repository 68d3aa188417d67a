/** The bearer header as the client builds it and the server reads it. */
module Handshake {
  import opened Wrappers
  import Dashboard
  import Api

  /** A real token sent by the client reaches the decoder unchanged. */
  lemma ClientHeaderAccepted(token: string, decode: string -> Option<string>)
    requires token != "" && Api.SpaceFree(token)
    ensures Api.GetCurrentUsername(Some(Dashboard.AuthHeader(Some(token))), decode)
            == if decode(token).Some? && decode(token).value != "" then Ok(decode(token).value)
               else Err(Api.InvalidToken)
  {
    Api.BearerRoundTrip(token, decode);
  }

  /** Without a token the client sends "Bearer null", and the server decodes the word "null". */
  lemma NullTokenHeader(decode: string -> Option<string>)
    ensures Api.GetCurrentUsername(Some(Dashboard.AuthHeader(None)), decode)
            == if decode("null").Some? && decode("null").value != "" then Ok(decode("null").value)
               else Err(Api.InvalidToken)
  {
    Api.BearerRoundTrip("null", decode);
  }
}
