/** What the handler sees of an HTTP request and what it sends back. */
module Http {
  import opened Basics
  import opened Text

  /** Header fields in the order the client sent them, as (name, value). */
  type Headers = seq<(string, string)>

  /** `headers.get(name)`: the value of the first field whose name equals
      `name` ignoring case, or None when no field has that name. */
  function GetHeader(hs: Headers, name: string): (r: Option<string>)
    ensures r.None? <==> forall i :: 0 <= i < |hs| ==> LowerAscii(hs[i].0) != LowerAscii(name)
    ensures r.Some? ==>
      exists i :: 0 <= i < |hs| && LowerAscii(hs[i].0) == LowerAscii(name) && hs[i].1 == r.value &&
        forall j :: 0 <= j < i ==> LowerAscii(hs[j].0) != LowerAscii(name)
  {
    if hs == [] then None
    else if LowerAscii(hs[0].0) == LowerAscii(name) then Some(hs[0].1)
    else
      var r := GetHeader(hs[1..], name);
      assert forall i :: 1 <= i < |hs| ==> hs[i] == hs[1..][i - 1];
      r
  }

  /** A status line and the bytes written after the headers. */
  datatype Response = Response(status: int, reason: string, body: seq<byte>)

  /** The answer to an upload that does not say how long it is. */
  const LengthRequired: Response :=
    Response(411, "Length Required", Latin1("The request content appears to be empty.\n"))

  function CommandError(stderr: seq<byte>): Response
  {
    Response(500, "Command error", stderr)
  }

  function Created(archive: seq<byte>): Response
  {
    Response(201, "Created", archive)
  }
}
