/** The three classifications a probe reports, with their exit codes and message prefixes. */
module Nagios {

  datatype Status = Ok | Warning | Critical {

    /** The process exit code the monitoring system reads. */
    function Code(): (code: nat)
      ensures code <= 2
      ensures code == 0 <==> this == Ok
      ensures code == 2 <==> this == Critical
    {
      match this
      case Ok => 0
      case Warning => 1
      case Critical => 2
    }

    /** The text that starts the status line. */
    function Prefix(): (p: string)
      ensures |p| > 2 && p[|p| - 2..] == ": "
      ensures p == "CRITICAL: " <==> this == Critical
      ensures p == "WARNING: " <==> this == Warning
    {
      match this
      case Ok => "OK: "
      case Warning => "WARNING: "
      case Critical => "CRITICAL: "
    }
  }

  /** The exit code and the prefix each tell the three statuses apart. */
  lemma {:induction false} StatusDistinct(a: Status, b: Status)
    ensures a.Code() == b.Code() ==> a == b
    ensures a.Prefix() == b.Prefix() ==> a == b
  {
  }
}
