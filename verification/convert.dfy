/**
 * Converting every element of a sequence, all or nothing: the pattern both
 * parse_data_file (over a report's rows) and collect_data (over the reports)
 * follow. Elements are converted in order; the first one that fails ends the
 * whole conversion with its error, and nothing partial is kept.
 */
module Convert {
  import opened Wrappers

  function ConvertAll<A, B, E>(xs: seq<A>, convert: A -> Result<B, E>): (r: Result<seq<B>, E>)
    ensures r.Success? ==> |r.value| == |xs|
  {
    if xs == [] then
      Success([])
    else
      var last := |xs| - 1;
      match ConvertAll(xs[..last], convert)
      case Failure(e) => Failure(e)
      case Success(done) =>
        match convert(xs[last])
        case Failure(e) => Failure(e)
        case Success(y) => Success(done + [y])
  }

  /**
   * The conversion succeeds exactly when every element converts, and then
   * the result holds each element's conversion at that element's position.
   */
  lemma {:induction false} ConvertAllSuccess<A, B, E>(xs: seq<A>, convert: A -> Result<B, E>)
    ensures ConvertAll(xs, convert).Success? <==> forall i :: 0 <= i < |xs| ==> convert(xs[i]).Success?
    ensures ConvertAll(xs, convert).Success? ==>
      forall i :: 0 <= i < |xs| ==> convert(xs[i]) == Success(ConvertAll(xs, convert).value[i])
  {
    if xs != [] {
      var last := |xs| - 1;
      var prefix := xs[..last];
      ConvertAllSuccess(prefix, convert);
      assert forall i :: 0 <= i < last ==> xs[i] == prefix[i];
    }
  }

  /** When the conversion fails, its error is that of the first element that does not convert. */
  lemma {:induction false} ConvertAllFailure<A, B, E>(xs: seq<A>, convert: A -> Result<B, E>)
    requires ConvertAll(xs, convert).Failure?
    ensures exists i :: (0 <= i < |xs|
      && convert(xs[i]) == Failure(ConvertAll(xs, convert).error)
      && (forall j :: 0 <= j < i ==> convert(xs[j]).Success?))
  {
    var last := |xs| - 1;
    var prefix := xs[..last];
    assert forall i :: 0 <= i < last ==> xs[i] == prefix[i];
    if ConvertAll(prefix, convert).Failure? {
      ConvertAllFailure(prefix, convert);
      var i :| 0 <= i < |prefix|
        && convert(prefix[i]) == Failure(ConvertAll(prefix, convert).error)
        && (forall j :: 0 <= j < i ==> convert(prefix[j]).Success?);
      assert convert(xs[i]) == Failure(ConvertAll(xs, convert).error);
    } else {
      ConvertAllSuccess(prefix, convert);
      assert convert(xs[last]) == Failure(ConvertAll(xs, convert).error);
    }
  }

  /** Converting one more element of xs extends what was converted of it so far. */
  lemma ConvertAllPrefix<A, B, E>(xs: seq<A>, i: nat, convert: A -> Result<B, E>)
    requires i < |xs|
    ensures ConvertAll(xs[..i + 1], convert) ==
      match ConvertAll(xs[..i], convert)
      case Failure(e) => Failure(e)
      case Success(done) =>
        match convert(xs[i])
        case Failure(e) => Failure(e)
        case Success(y) => Success(done + [y])
  {
    assert xs[..i + 1][..i] == xs[..i];
  }

  /** A failure stays the failure however many elements follow. */
  lemma {:induction false} ConvertAllFailureExtends<A, B, E>(xs: seq<A>, more: seq<A>, convert: A -> Result<B, E>)
    requires ConvertAll(xs, convert).Failure?
    ensures ConvertAll(xs + more, convert) == ConvertAll(xs, convert)
    decreases |more|
  {
    if more != [] {
      var last := |more| - 1;
      ConvertAllFailureExtends(xs, more[..last], convert);
      assert (xs + more)[..|xs + more| - 1] == xs + more[..last];
    } else {
      assert xs + more == xs;
    }
  }

  /** An element that fails after the earlier ones converted fails the whole sequence with its error. */
  lemma ConvertAllStops<A, B, E>(xs: seq<A>, i: nat, convert: A -> Result<B, E>, e: E)
    requires i < |xs| && ConvertAll(xs[..i], convert).Success? && convert(xs[i]) == Failure(e)
    ensures ConvertAll(xs, convert) == Failure(e)
  {
    ConvertAllPrefix(xs, i, convert);
    ConvertAllFailureExtends(xs[..i + 1], xs[i + 1..], convert);
    assert xs[..i + 1] + xs[i + 1..] == xs;
  }

  /** ConvertAllSuccess for everything but the first element, numbered as in xs. */
  lemma ConvertAllButFirst<A, B, E>(xs: seq<A>, convert: A -> Result<B, E>)
    requires |xs| > 0
    ensures ConvertAll(xs[1..], convert).Success? <==> forall i :: 1 <= i < |xs| ==> convert(xs[i]).Success?
    ensures ConvertAll(xs[1..], convert).Success? ==>
      forall i :: 1 <= i < |xs| ==> convert(xs[i]) == Success(ConvertAll(xs[1..], convert).value[i - 1])
  {
    ConvertAllSuccess(xs[1..], convert);
    assert forall i :: 1 <= i < |xs| ==> xs[1..][i - 1] == xs[i];
  }

  /** ConvertAllFailure for everything but the first element, numbered as in xs. */
  lemma ConvertAllButFirstFailure<A, B, E>(xs: seq<A>, convert: A -> Result<B, E>)
    requires |xs| > 0 && ConvertAll(xs[1..], convert).Failure?
    ensures exists i :: (1 <= i < |xs|
      && convert(xs[i]) == Failure(ConvertAll(xs[1..], convert).error)
      && (forall j :: 1 <= j < i ==> convert(xs[j]).Success?))
  {
    var rest := xs[1..];
    ConvertAllFailure(rest, convert);
    var i :| 0 <= i < |rest|
      && convert(rest[i]) == Failure(ConvertAll(rest, convert).error)
      && (forall j :: 0 <= j < i ==> convert(rest[j]).Success?);
    assert forall j :: 1 <= j <= i + 1 ==> xs[j] == rest[j - 1];
    assert convert(xs[i + 1]) == Failure(ConvertAll(rest, convert).error);
  }
}
