/// The parts of a DNS message that the plugin reads or builds: questions,
/// resource-record headers, TXT records and a message with its question and
/// answer sections.  Numeric values follow RFC 1035 (section 3.2 for types and
/// classes, section 4.1.1 for response codes).
module Dns {
  import opened Utf8

  const TypeA: nat := 1
  const TypeTXT: nat := 16
  const ClassINET: nat := 1

  const RcodeSuccess: int := 0
  const RcodeFormatError: int := 1
  const RcodeServerFailure: int := 2
  const RcodeNameError: int := 3

  /** A question: the query name in presentation form and the query type. */
  datatype Question = Question(name: seq<byte>, qtype: nat)

  datatype Header = Header(name: seq<byte>, rrtype: nat, rrclass: nat, ttl: nat)

  /** A resource record: a TXT record with its character strings, or any other
      record, whose data the plugin never looks at. */
  datatype RR =
    | TXT(hdr: Header, txt: seq<string>)
    | Other(hdr: Header, rdata: seq<byte>)

  /** A message: the question section, whether it is a response, and the answer section. */
  class Msg {
    var question: seq<Question>
    var response: bool
    var answer: seq<RR>

    /** An empty message, as new(dns.Msg) gives. */
    constructor ()
      ensures question == [] && !response && answer == []
    {
      question, response, answer := [], false, [];
    }

    /** Makes this message a response to `request`: it echoes the request's first
        question and leaves the answer section alone. */
    method SetReply(request: Msg)
      modifies this`question, this`response
      ensures response
      ensures question == if request.question == [] then [] else request.question[..1]
    {
      response := true;
      question := if request.question == [] then [] else request.question[..1];
    }
  }
}
