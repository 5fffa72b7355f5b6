/**
 * The automator's configuration and the two fields it updates while it
 * runs: the authorization code and the error message. Both start as None;
 * the source tests them with Python truthiness, so an empty string counts
 * as unset.
 */
module SessionState {
  import opened Wrappers

  /** The three constructor arguments. */
  datatype Config = Config(clientId: string, redirectUri: string, scopes: string)

  /** The values of `auth_code` and `error`. */
  datatype Session = Session(authCode: Option<string>, error: Option<string>)

  const Fresh: Session := Session(None, None)

  /** Python truthiness of an optional string: present and non-empty. */
  predicate Truthy(o: Option<string>) {
    o.Some? && o.value != []
  }
}
