/**
 * The ten DNS error kinds of app/dns/helpers/error_classes.js. Each source
 * class only fixes a name and a response code; here they are the
 * constructors of one datatype, and JavaScript's throw becomes the Failure
 * side of a Result carrying an Exception.
 */
module Errors {
  import opened Wire

  /** RCODEs 1-5 are those of RFC 1035 section 4.1.1, 6-10 those of RFC 2136 section 2.2. */
  datatype DnsError =
    | FORMERR | SRVFAIL | NXDOMAIN | NOTIMP | REFUSED
    | YXDOMAIN | YXRRSET | NXRRSET | NOTAUTH | NOTZONE

  /** What a JavaScript throw in the core can be: one of the DNS kinds, or a built-in error. */
  datatype Exception =
    | Raised(kind: DnsError)
    | TypeError    // a method called on undefined, or a missing function
    | RangeError   // a Buffer write of a value or at an offset out of range

  /** The rcode field each constructor sets. */
  function Rcode(e: DnsError): (r: nat)
    ensures 1 <= r <= 10
  {
    match e
    case FORMERR => 1
    case SRVFAIL => 2
    case NXDOMAIN => 3
    case NOTIMP => 4
    case REFUSED => 5
    case YXDOMAIN => 6
    case YXRRSET => 7
    case NXRRSET => 8
    case NOTAUTH => 9
    case NOTZONE => 10
  }

  /** The name field each constructor sets. */
  function Name(e: DnsError): string
  {
    match e
    case FORMERR => "FORMERR"
    case SRVFAIL => "SRVFAIL"
    case NXDOMAIN => "NXDOMAIN"
    case NOTIMP => "NOTIMP"
    case REFUSED => "REFUSED"
    case YXDOMAIN => "YXDOMAIN"
    case YXRRSET => "YXRRSET"
    case NXRRSET => "NXRRSET"
    case NOTAUTH => "NOTAUTH"
    case NOTZONE => "NOTZONE"
  }

  /** The kind carrying a given code, if any: the inverse of Rcode. */
  function FromRcode(code: int): (r: Option<DnsError>)
    ensures r.Some? <==> 1 <= code <= 10
    ensures r.Some? ==> Rcode(r.value) == code
  {
    if code == 1 then Some(FORMERR)
    else if code == 2 then Some(SRVFAIL)
    else if code == 3 then Some(NXDOMAIN)
    else if code == 4 then Some(NOTIMP)
    else if code == 5 then Some(REFUSED)
    else if code == 6 then Some(YXDOMAIN)
    else if code == 7 then Some(YXRRSET)
    else if code == 8 then Some(NXRRSET)
    else if code == 9 then Some(NOTAUTH)
    else if code == 10 then Some(NOTZONE)
    else None
  }

  /** Reading an error's code back gives the error. */
  lemma FromRcodeRcode(e: DnsError)
    ensures FromRcode(Rcode(e)) == Some(e)
  {
  }

  /** No two kinds share a code. */
  lemma RcodeInjective(a: DnsError, b: DnsError)
    requires Rcode(a) == Rcode(b)
    ensures a == b
  {
    FromRcodeRcode(a);
    FromRcodeRcode(b);
  }

  /** No kind is NOERROR, and every code fits the 4-bit RCODE field of the header. */
  lemma RcodeInField(e: DnsError)
    ensures 0 < Rcode(e) < 16
  {
  }

  /** Distinct kinds have distinct names. */
  lemma NameInjective(a: DnsError, b: DnsError)
    requires Name(a) == Name(b)
    ensures a == b
  {
  }
}
