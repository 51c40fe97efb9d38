/** The two response envelopes services hand back: `ErrorResponse` and
    `SuccessResponse`, each with fluent setters and `getArrayFormat`. */
module Responses {
  import opened Wrappers

  const HttpOk: int := 200
  const HttpCreated: int := 201
  const HttpForbidden: int := 403
  const HttpConflict: int := 409
  const HttpUnprocessable: int := 422
  const HttpInternalServerError: int := 500

  /** An error envelope. `message` is a typed property without a default:
      `None` means it has not been set yet. */
  datatype ErrorResponse = ErrorResponse(code: int, message: Option<string>, errors: seq<string>) {

    function SetCode(c: int): (r: ErrorResponse)
      ensures r.code == c && r.message == message && r.errors == errors
    {
      this.(code := c)
    }

    function SetMessage(m: string): (r: ErrorResponse)
      ensures r.message == Some(m) && r.code == code && r.errors == errors
    {
      this.(message := Some(m))
    }

    function SetErrors(es: seq<string>): (r: ErrorResponse)
      ensures r.errors == es && r.code == code && r.message == message
    {
      this.(errors := es)
    }

    /** Setting back the code just read changes nothing. */
    function GetCode(): (c: int)
      ensures SetCode(c) == this
    {
      code
    }

    /** The array form. Reading the message before it was set is an error,
        hence the precondition. */
    function GetArrayFormat(): (r: ErrorArray)
      requires message.Some?
      ensures !r.success
      ensures r.code == code && r.content.code == code
      ensures r.content.messages.Some? <==> TruthyString(message.value)
      ensures r.content.messages.Some? ==> r.content.messages.value == message.value
      ensures r.content.errors.Some? <==> |errors| > 0
      ensures r.content.errors.Some? ==> r.content.errors.value == errors
    {
      ErrorArray(
        false,
        code,
        ErrorContent(
          code,
          if TruthyString(message.value) then Some(message.value) else None,
          if |errors| > 0 then Some(errors) else None))
    }
  }

  /** `new ErrorResponse()`: code 500, no message, no errors. */
  const NewErrorResponse: ErrorResponse := ErrorResponse(HttpInternalServerError, None, [])

  datatype ErrorContent = ErrorContent(code: int, messages: Option<string>, errors: Option<seq<string>>)
  datatype ErrorArray = ErrorArray(success: bool, code: int, content: ErrorContent)

  /** One fluent setter call on an error envelope. */
  datatype ErrorSetter = SetCodeTo(c: int) | SetMessageTo(m: string) | SetErrorsTo(es: seq<string>)

  /** The envelope after a chain of setter calls, applied left to right. */
  function ApplyErrorSetters(r: ErrorResponse, calls: seq<ErrorSetter>): ErrorResponse
    decreases |calls|
  {
    if |calls| == 0 then r
    else
      var next :=
        match calls[0]
        case SetCodeTo(c) => r.SetCode(c)
        case SetMessageTo(m) => r.SetMessage(m)
        case SetErrorsTo(es) => r.SetErrors(es);
      ApplyErrorSetters(next, calls[1..])
  }

  /** The code argument of the last `setCode` in a chain, if any. */
  function LastCodeSet(calls: seq<ErrorSetter>): Option<int>
    decreases |calls|
  {
    if |calls| == 0 then None
    else if calls[|calls| - 1].SetCodeTo? then Some(calls[|calls| - 1].c)
    else LastCodeSet(calls[..|calls| - 1])
  }

  /** After any chain of setters the code is the last one set, or 500 when
      `setCode` was never called; both code fields of the array agree. */
  lemma {:induction false} ErrorCodeIsLastSet(calls: seq<ErrorSetter>, m: string)
    ensures ApplyErrorSetters(NewErrorResponse, calls).GetCode() == LastCodeSet(calls).GetOr(HttpInternalServerError)
    ensures ApplyErrorSetters(NewErrorResponse, calls + [SetMessageTo(m)]).message.Some?
    ensures var r := ApplyErrorSetters(NewErrorResponse, calls + [SetMessageTo(m)]);
            r.GetArrayFormat().code == r.GetArrayFormat().content.code == LastCodeSet(calls).GetOr(HttpInternalServerError)
  {
    ErrorSettersCode(NewErrorResponse, calls);
    ErrorSettersCode(NewErrorResponse, calls + [SetMessageTo(m)]);
    assert (calls + [SetMessageTo(m)])[..|calls|] == calls;
    assert (calls + [SetMessageTo(m)])[|calls|].SetMessageTo?;
  }

  lemma {:induction false} ErrorSettersCode(r: ErrorResponse, calls: seq<ErrorSetter>)
    ensures ApplyErrorSetters(r, calls).code == LastCodeSet(calls).GetOr(r.code)
    ensures ApplyErrorSetters(r, calls).message.Some? <==> r.message.Some? || exists i :: 0 <= i < |calls| && calls[i].SetMessageTo?
    decreases |calls|
  {
    if |calls| > 0 {
      var next :=
        match calls[0]
        case SetCodeTo(c) => r.SetCode(c)
        case SetMessageTo(m) => r.SetMessage(m)
        case SetErrorsTo(es) => r.SetErrors(es);
      ErrorSettersCode(next, calls[1..]);
      LastCodeSetCons(calls);
      if next.message.Some? && !r.message.Some? {
        assert calls[0].SetMessageTo?;
      }
      forall i | 1 <= i < |calls| ensures calls[i] == calls[1..][i - 1] {}
    }
  }

  lemma {:induction false} LastCodeSetCons(calls: seq<ErrorSetter>)
    requires |calls| > 0
    ensures LastCodeSet(calls) ==
              if LastCodeSet(calls[1..]).Some? then LastCodeSet(calls[1..])
              else if calls[0].SetCodeTo? then Some(calls[0].c)
              else None
    decreases |calls|
  {
    if |calls| > 1 {
      var init := calls[..|calls| - 1];
      assert init[1..] == calls[1..][..|calls[1..]| - 1];
      assert calls[1..][|calls[1..]| - 1] == calls[|calls| - 1];
      LastCodeSetCons(init);
    }
  }

  /** What `setData` accepts: an array, a string or null. */
  datatype Payload = Null | Text(text: string) | Items(items: seq<string>)

  /** A success envelope. `data` is a typed property without a default:
      `None` means it has not been set yet. */
  datatype SuccessResponse = SuccessResponse(code: int, data: Option<Payload>) {

    function SetCode(c: int): (r: SuccessResponse)
      ensures r.code == c && r.data == data
    {
      this.(code := c)
    }

    function SetData(p: Payload): (r: SuccessResponse)
      ensures r.data == Some(p) && r.code == code
    {
      this.(data := Some(p))
    }

    /** Setting back the code just read changes nothing. */
    function GetCode(): (c: int)
      ensures SetCode(c) == this
    {
      code
    }

    /** Reads back what `setData` stored; unset data is an error. */
    function GetData(): (p: Payload)
      requires data.Some?
      ensures data == Some(p)
    {
      data.value
    }

    function GetArrayFormat(): (r: SuccessArray)
      requires data.Some?
      ensures r.success
      ensures r.code == GetCode() && r.content == GetData()
    {
      SuccessArray(true, code, data.value)
    }
  }

  /** `new SuccessResponse()`: code 200, data not yet set. */
  const NewSuccessResponse: SuccessResponse := SuccessResponse(HttpOk, None)

  datatype SuccessArray = SuccessArray(success: bool, code: int, content: Payload)

  /** The order of `setData` and `setCode` does not matter, and the array
      form reports exactly what was set last; the default code is 200. */
  lemma SuccessSettersCommute(r: SuccessResponse, c: int, p: Payload)
    ensures r.SetCode(c).SetData(p) == r.SetData(p).SetCode(c)
    ensures r.SetData(p).SetCode(c).GetArrayFormat() == SuccessArray(true, c, p)
    ensures NewSuccessResponse.SetData(p).GetArrayFormat() == SuccessArray(true, HttpOk, p)
  {
  }

  /** What a service method hands back to its caller. */
  datatype Response = ErrorReply(error: ErrorResponse) | SuccessReply(success: SuccessResponse) {
    function Code(): int {
      match this
      case ErrorReply(e) => e.GetCode()
      case SuccessReply(s) => s.GetCode()
    }
  }
}
