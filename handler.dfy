/// The plugin's query handler (Handler.ServeDNS in handler.go).  The language
/// model, the response writer and the next plugin in the chain are objects
/// that record how they were used: the prompts the client was asked, the
/// replies the writer sent, the requests the next plugin was handed.
module Handler {
  import opened Wrappers
  import opened Utf8
  import opened Dns
  import QName
  import Chunking
  import TxtAnswer

  /** What a chat completion gives: the answer text, or an error whose message
      is what `%v` prints for it. */
  datatype ChatResult = Answer(text: string) | Failure(message: string)

  /** The LLMClient interface.  `respond` stands for the remote model: which
      answer a prompt gets is outside this model. */
  class ChatClient {
    var prompts: seq<seq<byte>>
    const respond: seq<byte> -> ChatResult

    constructor (respond: seq<byte> -> ChatResult)
      ensures prompts == [] && this.respond == respond
    {
      prompts := [];
      this.respond := respond;
    }

    method Chat(prompt: seq<byte>) returns (r: ChatResult)
      modifies this`prompts
      ensures prompts == old(prompts) + [prompt]
      ensures r == respond(prompt)
    {
      prompts := prompts + [prompt];
      r := respond(prompt);
    }
  }

  /** A message as it goes out on the wire. */
  datatype Sent = Sent(question: seq<Question>, response: bool, answer: seq<RR>)

  /** The dns.ResponseWriter: the messages it sent, and the error every write
      reports (None when writes succeed). */
  class ResponseWriter {
    var sent: seq<Sent>
    const failure: Option<string>

    constructor (failure: Option<string>)
      ensures sent == [] && this.failure == failure
    {
      sent := [];
      this.failure := failure;
    }

    method WriteMsg(m: Msg) returns (err: Option<string>)
      modifies this`sent
      ensures sent == old(sent) + [Sent(m.question, m.response, m.answer)]
      ensures err == failure
    {
      sent := sent + [Sent(m.question, m.response, m.answer)];
      err := failure;
    }
  }

  /** The next plugin in the chain: the questions of the requests it was
      handed, and the result it returns for them. */
  class NextHandler {
    var served: seq<seq<Question>>
    const rcode: int
    const err: Option<string>

    constructor (rcode: int, err: Option<string>)
      ensures served == [] && this.rcode == rcode && this.err == err
    {
      served := [];
      this.rcode := rcode;
      this.err := err;
    }

    method ServeDNS(w: ResponseWriter, r: Msg) returns (rcode': int, err': Option<string>)
      modifies this`served
      ensures served == old(served) + [r.question]
      ensures rcode' == rcode && err' == err
    {
      served := served + [r.question];
      rcode', err' := rcode, err;
    }
  }

  /** The text put into the reply: the answer, or "Error: " and the message. */
  function AnswerText(res: ChatResult): string
  {
    match res
    case Answer(text) => text
    case Failure(message) => "Error: " + message
  }

  /** The answer section of the reply to a TXT question for `qname`. */
  function ReplyAnswer(qname: seq<byte>, res: ChatResult, chunkSize: int): seq<RR>
  {
    TxtAnswer.Records(qname, Chunking.Split(AnswerText(res), TxtAnswer.EffectiveLimit(chunkSize)))
  }

  /** What a client reads back from the reply: the records are numbered in
      order and, joined, give the answer text less any code point wider than a
      chunk; a failed completion reads as "Error: " and its message. */
  lemma ReplyReadsBack(qname: seq<byte>, res: ChatResult, chunkSize: int)
    ensures var rrs := ReplyAnswer(qname, res, chunkSize);
      var limit := TxtAnswer.EffectiveLimit(chunkSize);
      && |rrs| >= 1
      && TxtAnswer.ChunksFrom(rrs, 0).Some?
      && Chunking.Concat(TxtAnswer.ChunksFrom(rrs, 0).value) == Chunking.Keep(AnswerText(res), limit)
      && (res.Failure? ==>
            Chunking.Concat(TxtAnswer.ChunksFrom(rrs, 0).value) == "Error: " + Chunking.Keep(res.message, limit))
  {
    TxtAnswer.AnswerRoundTrip(qname, AnswerText(res), chunkSize);
    if res.Failure? {
      ErrorTextKept(res.message, TxtAnswer.EffectiveLimit(chunkSize));
    }
  }

  /** The "Error: " prefix is one-byte code points, kept whatever the limit. */
  lemma ErrorTextKept(message: string, limit: int)
    requires limit >= 1
    ensures Chunking.Keep("Error: " + message, limit) == "Error: " + Chunking.Keep(message, limit)
  {
    Chunking.KeepAppend("Error: ", message, limit);
    Chunking.KeepAllFit("Error: ", limit);
  }

  /** The request gets a reply from the model: its first question asks for
      TXT records and its name decodes to a non-empty prompt. */
  predicate Answerable(question: seq<Question>)
  {
    question != [] && question[0].qtype == TypeTXT && QName.Decoded(question[0].name) != []
  }

  /** The error plugin.NextOrFailure reports when there is no next plugin. */
  function NoNextPlugin(name: string): string
  {
    "plugin/" + name + ": no next plugin found"
  }

  class Handler {
    const next: NextHandler?
    const chunkSize: int
    const client: ChatClient

    constructor (next: NextHandler?, chunkSize: int, client: ChatClient)
      ensures this.next == next && this.chunkSize == chunkSize && this.client == client
    {
      this.next := next;
      this.chunkSize := chunkSize;
      this.client := client;
    }

    /** The plugin's name, as plugin.NextOrFailure prints it. */
    function Name(): string
    {
      "llm"
    }

    /** Handler.ServeDNS: a request without a question is a format error; a
        question other than TXT goes to the next plugin; a TXT question whose
        name decodes to nothing is a name error; any other is put to the model
        once, and its answer, or its error as text, is written back as TXT
        records, the outcome of the write deciding the result. */
    method ServeDNS(w: ResponseWriter, r: Msg) returns (rcode: int, err: Option<string>)
      modifies client`prompts, w`sent, next
      ensures r.question == [] ==> rcode == RcodeFormatError && err == None
      ensures r.question != [] && r.question[0].qtype != TypeTXT ==>
        if next == null then rcode == RcodeServerFailure && err == Some(NoNextPlugin(Name()))
        else rcode == next.rcode && err == next.err && next.served == old(next.served) + [r.question]
      ensures r.question != [] && r.question[0].qtype == TypeTXT && QName.Decoded(r.question[0].name) == [] ==>
        rcode == RcodeNameError && err == None
      ensures Answerable(r.question) ==>
        var q := r.question[0];
        var prompt := QName.Decoded(q.name);
        && client.prompts == old(client.prompts) + [prompt]
        && w.sent == old(w.sent) + [Sent([q], true, ReplyAnswer(q.name, client.respond(prompt), chunkSize))]
        && (if w.failure.Some? then rcode == RcodeServerFailure && err == w.failure
            else rcode == RcodeSuccess && err == None)
      ensures !Answerable(r.question) ==> client.prompts == old(client.prompts) && w.sent == old(w.sent)
      ensures (r.question == [] || r.question[0].qtype == TypeTXT) && next != null ==> next.served == old(next.served)
    {
      if |r.question| == 0 {
        return RcodeFormatError, None;
      }
      var q := r.question[0];
      if q.qtype != TypeTXT {
        if next == null {
          return RcodeServerFailure, Some(NoNextPlugin(Name()));
        }
        rcode, err := next.ServeDNS(w, r);
        return;
      }

      rcode, err := ServeTxt(w, r);
    }

    /** The TXT path of ServeDNS: the name decoded into a prompt, a name error
        when it is empty, otherwise the prompt put to the model once and the
        reply written. */
    method ServeTxt(w: ResponseWriter, r: Msg) returns (rcode: int, err: Option<string>)
      requires r.question != [] && r.question[0].qtype == TypeTXT
      modifies client`prompts, w`sent
      ensures !Answerable(r.question) ==>
        rcode == RcodeNameError && err == None && client.prompts == old(client.prompts) && w.sent == old(w.sent)
      ensures Answerable(r.question) ==>
        var q := r.question[0];
        var prompt := QName.Decoded(q.name);
        && client.prompts == old(client.prompts) + [prompt]
        && w.sent == old(w.sent) + [Sent([q], true, ReplyAnswer(q.name, client.respond(prompt), chunkSize))]
        && (if w.failure.Some? then rcode == RcodeServerFailure && err == w.failure
            else rcode == RcodeSuccess && err == None)
    {
      var q := r.question[0];
      var prompt := QName.DecodeQName(q.name);
      if prompt == [] {
        return RcodeNameError, None;
      }
      var res := client.Chat(prompt);
      rcode, err := Reply(w, r, res);
    }

    /** The last steps of ServeDNS: the answer, or the error as text, is put
        into a reply to `r` as TXT records named after its question, and the
        outcome of writing the reply decides the result. */
    method Reply(w: ResponseWriter, r: Msg, res: ChatResult) returns (rcode: int, err: Option<string>)
      requires r.question != []
      modifies w`sent
      ensures w.sent == old(w.sent) + [Sent([r.question[0]], true, ReplyAnswer(r.question[0].name, res, chunkSize))]
      ensures if w.failure.Some? then rcode == RcodeServerFailure && err == w.failure
              else rcode == RcodeSuccess && err == None
    {
      var q := r.question[0];
      var answer := AnswerText(res);
      var reply := new Msg();
      reply.SetReply(r);
      assert reply.question == [q] && reply.answer == [];
      TxtAnswer.AddTxtChunks(reply, q.name, answer, chunkSize);
      ghost var records := ReplyAnswer(q.name, res, chunkSize);
      assert reply.answer == [] + records == records;
      var werr := w.WriteMsg(reply);
      if werr.Some? {
        return RcodeServerFailure, werr;
      }
      return RcodeSuccess, None;
    }
  }
}
