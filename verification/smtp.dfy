/** `SmtpCryptoKind.from_string`: the `SMTP_CRYPTO` setting read as one of
    three connection security modes. */
module Smtp {
  import opened Wrappers
  import opened PyStr

  datatype CryptoKind = NoCrypto | Tls | Ssl

  datatype ValueError = ValueError(message: string)

  /** `from_string`: surrounding whitespace and case are ignored, an empty
      setting means no encryption, anything unknown is an error naming the
      value as given. */
  function FromString(value: string): (r: Result<CryptoKind, ValueError>)
    ensures r == Success(NoCrypto) <==> Lower(Strip(value)) == ""
    ensures r == Success(Tls) <==> Lower(Strip(value)) == "tls"
    ensures r == Success(Ssl) <==> Lower(Strip(value)) == "ssl"
    ensures r.Failure? <==> Lower(Strip(value)) !in {"", "tls", "ssl"}
    ensures r.Failure? ==> r.error.message == "Unknown SMTP crypto kind: " + value
  {
    match Lower(Strip(value))
    case "" => Success(NoCrypto)
    case "tls" => Success(Tls)
    case "ssl" => Success(Ssl)
    case _ => Failure(ValueError("Unknown SMTP crypto kind: " + value))
  }

  /** The lower-case spelling of each kind. */
  function Spelling(k: CryptoKind): string {
    match k
    case NoCrypto => ""
    case Tls => "tls"
    case Ssl => "ssl"
  }

  /** Every kind is read back from its spelling. */
  lemma FromSpelling(k: CryptoKind)
    ensures FromString(Spelling(k)) == Success(k)
  {
    LowerOfLowerCase(Spelling(k));
    StripNoOp(Spelling(k));
  }

  /** Padding with whitespace changes nothing. */
  lemma PaddingIgnored(value: string)
    ensures FromString(" " + value + "\n").Success? <==> FromString(value).Success?
    ensures FromString(value).Success? ==> FromString(" " + value + "\n") == FromString(value)
  {
    StripPadded(" ", value, "\n");
  }
}
