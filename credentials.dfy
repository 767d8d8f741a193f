/**
 * .NET's `SecureString`, reduced to what the authenticator relies on: it holds
 * secret text until it is disposed, disposal erases the text, and reading a
 * disposed one fails.
 */
module Credentials {
  import opened Outcomes

  class SecureString {
    var chars: string
    var disposed: bool

    /** `text.ToSecureString()`. */
    constructor (text: string)
      ensures chars == text && !disposed
    {
      chars := text;
      disposed := false;
    }

    /** Erases the secret; disposing twice is harmless. */
    method Dispose()
      modifies this
      ensures disposed && chars == []
    {
      chars := [];
      disposed := true;
    }

    /** `ToInsecureString()`: the plain text, or ObjectDisposedException once disposed. */
    method ToInsecureString() returns (r: Result<string>)
      ensures disposed ==> r == Failure(ObjectDisposed("SecureString"))
      ensures !disposed ==> r == Success(chars)
    {
      if disposed {
        r := Failure(ObjectDisposed("SecureString"));
      } else {
        r := Success(chars);
      }
    }
  }
}
