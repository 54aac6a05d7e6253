/**
 * The layout's toast: one record holding whether the toast shows, its message and its
 * severity, replaced whole by `showToast` and `hideToast`.
 */
module Toast {
  import opened Wrappers

  datatype Severity = Success | Info | Warning | Error

  datatype ToastProps = ToastProps(open: bool, message: string, severity: Severity)

  const InitialToast := ToastProps(false, "", Success)

  /** `{...toast, open: false}`: closed, message and severity kept. */
  function Hidden(t: ToastProps): (r: ToastProps)
    ensures !r.open && r.message == t.message && r.severity == t.severity
  {
    t.(open := false)
  }

  /** The record `showToast(message, severity)` sets; an omitted severity is `Success`. */
  function Shown(message: string, severity: Option<Severity>): (r: ToastProps)
    ensures r.open && r.message == message
    ensures r.severity == if severity.Some? then severity.value else Success
  {
    ToastProps(true, message, severity.GetOr(Success))
  }

  /** Hiding is idempotent, and hiding a shown toast keeps what it said. */
  lemma HideIdempotent(t: ToastProps, message: string, severity: Option<Severity>)
    ensures Hidden(Hidden(t)) == Hidden(t)
    ensures Hidden(Shown(message, severity)).message == message
  {
  }

  class ToastState {
    var toast: ToastProps

    constructor ()
      ensures toast == InitialToast
    {
      toast := InitialToast;
    }

    method ShowToast(message: string, severity: Option<Severity>)
      modifies this
      ensures toast == Shown(message, severity)
    {
      toast := ToastProps(true, message, severity.GetOr(Success));
    }

    method HideToast()
      modifies this
      ensures toast == Hidden(old(toast))
    {
      toast := toast.(open := false);
    }
  }
}
