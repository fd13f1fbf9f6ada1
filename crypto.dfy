/**
 * bcrypt and JSON Web Tokens as abstract capabilities. The cryptography is not modelled;
 * each capability is a pair of functions together with the one law the handlers rely on.
 */
module Crypto {
  import opened Wrappers
  import opened Records

  /** `bcrypt.hash(password, salt)` and `bcrypt.compare(password, hash)`. */
  datatype PasswordScheme = PasswordScheme(hash: (string, nat) -> string, compare: (string, string) -> bool)

  /** A password always matches a hash made from it, whatever the salt. */
  ghost predicate SchemeSound(scheme: PasswordScheme) {
    forall password, salt :: scheme.compare(password, scheme.hash(password, salt))
  }

  /** `jwt.sign(claims, secret)` and `jwt.verify(token, secret)` under the process secret. */
  datatype TokenSigner = TokenSigner(sign: Claims -> string, verify: string -> Option<Claims>)

  /** A signed token is a non-empty word without spaces. */
  predicate IsTokenWord(t: string) {
    t != [] && ' ' !in t
  }

  /** A token just signed verifies to the claims it was signed with. */
  ghost predicate SignerSound(signer: TokenSigner) {
    forall c :: signer.verify(signer.sign(c)) == Some(c) && IsTokenWord(signer.sign(c))
  }
}
