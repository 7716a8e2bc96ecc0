/** The part of the wallet/auth manager that the registry and the oracle
    consult: who is calling. The session is the connected wallet's address,
    or nothing when no wallet has been connected. */
module Auth {
  import opened Base

  datatype AuthError =
    | NotAuthenticated
    | InvalidSignature
    | ProviderError(message: string)
    | HyperliquidError(message: string)

  /** `AuthManager::get_current_address`: the connected wallet's address, or
      `NotAuthenticated` when there is none. */
  function CurrentAddress(session: Option<Address>): (r: Result<Address, AuthError>)
    ensures r.Ok? <==> session.Some?
    ensures r.Ok? ==> r.value == session.value
    ensures r.Err? ==> r.error == NotAuthenticated
  {
    match session
    case Some(address) => Ok(address)
    case None => Err(NotAuthenticated)
  }
}
