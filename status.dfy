/**
 * The result envelope every service operation returns (internal/service/error.go):
 * an optional cause, a message and an HTTP-style code.
 */
module ServiceStatus {
  import opened Basics

  const StatusOK := 200
  const StatusCreated := 201
  const StatusBadRequest := 400
  const StatusNotFound := 404
  const StatusInternalServerError := 500

  /**
   * The cause `fmt.Errorf(errorMessage, err)` builds. Its text is not modelled;
   * `wrapped` records whether the `err` it wraps was non-nil.
   */
  datatype Cause = Cause(wrapped: bool)

  datatype Status = Status(err: Option<Cause>, msg: string, code: int) {
    /** Ok reports whether the cause is absent. */
    predicate Ok() { err.None? }
  }

  /** The zero value of a `var status Status`. */
  const ZeroStatus := Status(None, "", 0)

  /**
   * The status `withError` leaves behind. The cause is always present, because
   * `fmt.Errorf` never returns nil, even when the wrapped error is nil.
   */
  function ErrorStatus(wrapped: bool, msg: string, code: int): (s: Status)
    ensures !s.Ok() && s.msg == msg && s.code == code
    ensures s.err == Some(Cause(wrapped))
  {
    Status(Some(Cause(wrapped)), msg, code)
  }

  /** The status `success` leaves behind: no cause, so it is Ok. */
  function SuccessStatus(msg: string, code: int): (s: Status)
    ensures s.Ok() && s.msg == msg && s.code == code
  {
    Status(None, msg, code)
  }

  /**
   * A `Status` variable whose pointer-receiver methods `withError` and
   * `success` assign its fields and return a copy of it.
   */
  class StatusVar {
    var err: Option<Cause>
    var msg: string
    var code: int

    /** `var status Status`: the zero value. */
    constructor ()
      ensures Value() == ZeroStatus
    {
      err, msg, code := None, "", 0;
    }

    /** The copy `*s`. */
    function Value(): Status
      reads this
    {
      Status(err, msg, code)
    }

    method WithError(wrapped: bool, message: string, statusCode: int) returns (s: Status)
      modifies this
      ensures Value() == ErrorStatus(wrapped, message, statusCode)
      ensures s == Value()
    {
      err := Some(Cause(wrapped));
      msg := message;
      code := statusCode;
      s := Status(err, msg, code);
    }

    method Success(message: string, statusCode: int) returns (s: Status)
      modifies this
      ensures Value() == SuccessStatus(message, statusCode)
      ensures s == Value()
    {
      err := None;
      msg := message;
      code := statusCode;
      s := Status(err, msg, code);
    }
  }
}
