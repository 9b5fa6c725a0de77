/**
 * What the two probes share around a query: the choice of computation from a
 * mode's `type`, the standard computation, and the host string the
 * connection (and so the delta state key) is built from.
 *
 * A query's result rows are modelled by the first column of each row, in
 * order; the database access itself is not modelled.
 */
module Queries {
  import opened Wrappers
  import opened Py

  /** The three computations a mode can select. */
  datatype Kind = Standard | Divide | Delta

  /** `type` of a mode: "delta" and "divide" select those; anything else, or none, is standard. */
  function KindOf(kind: Option<string>): (k: Kind)
    ensures k == Delta <==> kind == Some("delta")
    ensures k == Divide <==> kind == Some("divide")
  {
    if kind == Some("delta") then Delta
    else if kind == Some("divide") then Divide
    else Standard
  }

  /**
   * One entry of a probe's mode table as the query object receives it: the
   * SQL text, the optional `type` and the optional `modifier`.
   */
  datatype Mode = Mode(query: string, kind: Option<string>, modifier: Option<real>) {
    /** The constructor's default for an absent modifier is 1. */
    function Scale(): (m: real)
      ensures modifier.None? ==> m == 1.0
      ensures modifier.Some? ==> m == modifier.value
    {
      if modifier.Some? then modifier.value else 1.0
    }
  }

  /**
   * `float(cur.fetchone()[0]) * modifier`: the first row's value, scaled.
   * A query with no rows makes `fetchone()` return None, and indexing it raises.
   */
  function StandardValue(rows: seq<real>, modifier: real): (r: Result<real, Fault>)
    ensures r.Failure? <==> |rows| == 0
    ensures r.Failure? ==> r.error == MissingRow
    ensures r.Success? && modifier != 0.0 ==> r.value / modifier == rows[0]
    ensures r.Success? && modifier == 0.0 ==> r.value == 0.0
  {
    if |rows| == 0 then Failure(MissingRow) else Success(rows[0] * modifier)
  }

  /** With the default modifier the standard computation reports the first row unchanged. */
  lemma {:induction false} DefaultModifierIsIdentity(query: string, kind: Option<string>, rows: seq<real>)
    requires |rows| > 0
    ensures StandardValue(rows, Mode(query, kind, None).Scale()) == Success(rows[0])
  {
  }

  /**
   * The server name handed to the driver: `hostname\instance` when an
   * instance is given, else `hostname:port` when a port is given, else the
   * bare hostname.  An empty option counts as not given.
   */
  function ConnectHost(hostname: string, instance: Option<string>, port: Option<string>): (host: string)
    ensures |host| >= |hostname| && host[..|hostname|] == hostname
    ensures host == hostname <==> !Truthy(instance) && !Truthy(port)
    ensures Truthy(instance) ==> host[|hostname|..] == "\\" + instance.value
    ensures !Truthy(instance) && Truthy(port) ==> host[|hostname|..] == ":" + port.value
  {
    if Truthy(instance) then hostname + "\\" + instance.value
    else if Truthy(port) then hostname + ":" + port.value
    else hostname
  }

  /** The instance wins: a port given alongside an instance changes nothing. */
  lemma {:induction false} InstanceWinsOverPort(hostname: string, instance: string, port: Option<string>)
    requires |instance| > 0
    ensures ConnectHost(hostname, Some(instance), port) == ConnectHost(hostname, Some(instance), None)
    ensures ConnectHost(hostname, Some(instance), port) != ConnectHost(hostname, None, port)
  {
    var withInstance := ConnectHost(hostname, Some(instance), port);
    assert withInstance[|hostname|] == '\\';
    if Truthy(port) {
      assert ConnectHost(hostname, None, port)[|hostname|] == ':';
    } else {
      assert |ConnectHost(hostname, None, port)| == |hostname|;
    }
  }
}
