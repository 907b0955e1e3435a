/** The bytes of an answer, and what a client makes of its first line. */
module Answers {
  import opened Bytes
  import opened Lines
  import opened Message
  import opened Verdicts
  import opened Response

  /** The code and the reason of a status. */
  function Words(status: Status): (string, string) {
    match status
    case StatusOk => ("200", "OK")
    case BadRequest => ("400", "Bad Request")
    case NotFound => ("404", "Not Found")
    case MethodNotAllowed => ("405", "Method Not Allowed")
    case RequestTimeout => ("408", "Request Timeout")
    case LengthRequired => ("411", "Length Required")
    case PayloadTooLarge => ("413", "Payload Too Large")
    case HeaderFieldsTooLarge => ("431", "Request Header Fields Too Large")
    case InternalServerError => ("500", "Internal Server Error")
    case NotImplemented => ("501", "Not Implemented")
    case StatusNone => ("0", "")
  }

  /** The first line of a response. */
  function StatusWords(status: Status): string { "HTTP/1.1 " + Words(status).0 + " " + Words(status).1 }

  /** A header line; a size is printed as its numeral, without leading zeros. */
  ghost predicate IsHeaderLine(line: string, name: string, value: HeaderValue) {
    match value
    case Str(s) => line == name + ": " + s
    case Size(n) =>
      exists text ::
        IsNumeral(text) && Numeral(text) == n && (text[0] != '0' || |text| == 1) && line == name + ": " + text
  }

  lemma {:induction false} OneDigit(n: nat)
    requires n < 10
    ensures Decimal(n) == ["0123456789"[n]]
  {
  }

  lemma {:induction false} DecimalSnoc(n: nat)
    requires n >= 10
    ensures Decimal(n) == Decimal(n / 10) + Decimal(n % 10)
  {
  }

  lemma {:induction false} ThreeDigits(n: nat)
    requires 100 <= n < 1000
    ensures Decimal(n) == ["0123456789"[n / 100], "0123456789"[n / 10 % 10], "0123456789"[n % 10]]
  {
    hide Decimal;
    DecimalSnoc(n);
    DecimalSnoc(n / 10);
    OneDigit(n / 100);
    OneDigit(n / 10 % 10);
    OneDigit(n % 10);
  }

  lemma {:induction false} NoLeadingZero(n: nat)
    ensures Decimal(n)[0] != '0' || |Decimal(n)| == 1
  {
    if n < 10 {
      OneDigit(n);
    } else {
      DecimalSnoc(n);
      NoLeadingZero(n / 10);
      if n / 10 < 10 {
        OneDigit(n / 10);
      }
    }
  }

  lemma {:induction false} CodeDigits(status: Status)
    ensures Decimal(Code(status)) == Words(status).0
  {
    hide Decimal;
    if status == StatusNone {
      OneDigit(0);
    } else {
      ThreeDigits(Code(status));
    }
  }

  lemma {:induction false} ReasonText(status: Status)
    ensures StatusText(status) == Words(status).1
  {
  }

  lemma {:induction false} CodeWords(status: Status)
    ensures "HTTP/1.1 " + Decimal(Code(status)) + " " + StatusText(status) == StatusWords(status)
  {
    hide Decimal, Code, StatusText, Words;
    CodeDigits(status);
    ReasonText(status);
  }

  lemma {:induction false} HeaderLineIs(name: string, value: HeaderValue)
    ensures IsHeaderLine(FieldLine(name, value), name, value)
  {
    if value.Size? {
      NoLeadingZero(value.n);
      assert IsNumeral(Decimal(value.n));
    }
  }

  /** What the k-th request of a connection is answered on the wire: the words of its status, its headers in
      some order, the empty line and the body. */
  lemma {:induction false} AnswerBytes(r: Request, env: Env, k: nat)
      returns (resp: Response, order: seq<string>, fields: seq<string>)
    requires Typed(r.headers) && env.Valid()
    ensures IsAnswer(r, env, k, resp) && IsOrder(order, resp.headers) && |fields| == |order|
    ensures forall i :: 0 <= i < |order| ==> IsHeaderLine(fields[i], order[i], resp.headers[order[i]])
    ensures ResponseBytes(r, env, k) == StatusWords(resp.status) + "\r\n" + Section(fields) + resp.body
  {
    hide MakeResponse, Section, StatusWords, StatusText, Code, Decimal, IsHeaderLine, IsAnswer;
    resp := MakeResponse(r, env, k);
    order := env.order(k, resp.headers);
    fields := FieldLines(resp.headers, order);
    AnswerOf(r, env, k);
    CodeWords(resp.status);
    SectionCons(StatusLine(resp), fields);
    forall i | 0 <= i < |order| ensures IsHeaderLine(fields[i], order[i], resp.headers[order[i]]) {
      HeaderLineIs(order[i], resp.headers[order[i]]);
    }
  }
}
