/** What several components share: optional values, the status codes of the library, and an optional bias. */
module Common {

  datatype Option<T> = None | Some(value: T)

  datatype Status = Ok | InvalidArg | Unsupported

  function BiasAt(bias: Option<seq<real>>, n: nat): (b: real)
    ensures bias.None? ==> b == 0.0
    ensures bias.Some? && n < |bias.value| ==> b == bias.value[n]
  {
    if bias.Some? && n < |bias.value| then bias.value[n] else 0.0
  }

  /** All pieces one after the other. */
  ghost function Flatten<T>(pieces: seq<seq<T>>): seq<T> {
    if pieces == [] then [] else Flatten(pieces[..|pieces| - 1]) + pieces[|pieces| - 1]
  }

  lemma {:induction false} FlattenFirst<T>(pieces: seq<seq<T>>)
    requires pieces != []
    ensures Flatten(pieces) == pieces[0] + Flatten(pieces[1..])
  {
    var l := |pieces| - 1;
    if l > 0 {
      FlattenFirst(pieces[..l]);
      assert pieces[..l][1..] == pieces[1..][..l - 1];
    }
  }
}
