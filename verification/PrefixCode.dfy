/**
 * Sequences of values laid out one after another, each by a code whose words
 * tell their own length: `dec` reads the first value off and leaves the rest.
 */
module PrefixCode {
  import opened Wrappers

  type Decoder<!T, !B> = seq<B> -> Option<(T, seq<B>)>

  /** `dec` reads back exactly what `enc` writes, for the values that fit. */
  ghost predicate Inverse<T(!new), B(!new)>(fits: T -> bool, enc: T -> seq<B>, dec: Decoder<T, B>) {
    && (forall x, rest | fits(x) :: dec(enc(x) + rest) == Some((x, rest)))
    && (forall bytes | dec(bytes).Some? ::
          fits(dec(bytes).value.0) && bytes == enc(dec(bytes).value.0) + dec(bytes).value.1)
    && dec([]).None?
  }

  predicate AllFit<T>(fits: T -> bool, xs: seq<T>) {
    forall i | 0 <= i < |xs| :: fits(xs[i])
  }

  function Joined<T, B>(enc: T -> seq<B>, xs: seq<T>): seq<B> {
    if xs == [] then [] else Joined(enc, xs[..|xs| - 1]) + enc(xs[|xs| - 1])
  }

  lemma JoinedNext<T, B>(enc: T -> seq<B>, xs: seq<T>, x: T)
    ensures Joined(enc, xs + [x]) == Joined(enc, xs) + enc(x)
  {
    assert (xs + [x])[..|xs|] == xs;
  }

  lemma Regroup<T>(a: seq<T>, b: seq<T>, c: seq<T>)
    ensures a + b + c == a + (b + c)
  {
  }

  lemma AllFitNext<T>(fits: T -> bool, xs: seq<T>, x: T)
    ensures AllFit(fits, xs + [x]) <==> AllFit(fits, xs) && fits(x)
  {
    assert (xs + [x])[|xs|] == x;
    assert forall i | 0 <= i < |xs| :: (xs + [x])[i] == xs[i];
  }

  /** The first `n` values and what comes after them. */
  function Taken<T, B>(dec: Decoder<T, B>, bytes: seq<B>, n: nat): Option<(seq<T>, seq<B>)> {
    if n == 0 then Some(([], bytes))
    else
      var before := Taken(dec, bytes, n - 1);
      if before.None? then None
      else
        var next := dec(before.value.1);
        if next.None? then None
        else Some((before.value.0 + [next.value.0], next.value.1))
  }

  lemma {:induction false} TakenNoMore<T, B>(dec: Decoder<T, B>, bytes: seq<B>, i: nat, n: nat)
    requires i <= n && Taken(dec, bytes, i).None?
    ensures Taken(dec, bytes, n).None?
    decreases n
  {
    if i < n {
      TakenNoMore(dec, bytes, i, n - 1);
    }
  }

  lemma {:induction false} JoinedIsTaken<T(!new), B(!new)>(
      fits: T -> bool, enc: T -> seq<B>, dec: Decoder<T, B>, xs: seq<T>, rest: seq<B>)
    requires Inverse(fits, enc, dec) && AllFit(fits, xs)
    ensures Taken(dec, Joined(enc, xs) + rest, |xs|) == Some((xs, rest))
  {
    if xs == [] {
      assert Joined(enc, xs) + rest == rest;
    } else {
      var before, last := xs[..|xs| - 1], xs[|xs| - 1];
      JoinedIsTaken(fits, enc, dec, before, enc(last) + rest);
      assert xs == before + [last];
      Regroup(Joined(enc, before), enc(last), rest);
    }
  }

  lemma {:induction false} TakenWasJoined<T(!new), B(!new)>(
      fits: T -> bool, enc: T -> seq<B>, dec: Decoder<T, B>, bytes: seq<B>, n: nat)
    requires Inverse(fits, enc, dec) && Taken(dec, bytes, n).Some?
    ensures var (xs, rest) := Taken(dec, bytes, n).value;
            |xs| == n && AllFit(fits, xs) && bytes == Joined(enc, xs) + rest
  {
    if n > 0 {
      TakenWasJoined(fits, enc, dec, bytes, n - 1);
      var (before, middle) := Taken(dec, bytes, n - 1).value;
      var (last, rest) := dec(middle).value;
      assert (before + [last])[..n - 1] == before;
      assert Joined(enc, before) + (enc(last) + rest) == Joined(enc, before + [last]) + rest;
    }
  }

  lemma {:induction false} JoinedSplits<T(!new), B(!new)>(enc: T -> seq<B>, p: seq<T>, q: seq<T>)
    ensures Joined(enc, p + q) == Joined(enc, p) + Joined(enc, q)
    decreases |q|
  {
    if q == [] {
      assert p + q == p;
    } else {
      var before, last := q[..|q| - 1], q[|q| - 1];
      JoinedSplits(enc, p, before);
      assert p + q == (p + before) + [last];
      JoinedNext(enc, p + before, last);
      Regroup(Joined(enc, p), Joined(enc, before), enc(last));
    }
  }

  lemma JoinedNotEmpty<T(!new), B(!new)>(fits: T -> bool, enc: T -> seq<B>, dec: Decoder<T, B>, xs: seq<T>)
    requires Inverse(fits, enc, dec) && AllFit(fits, xs)
    ensures xs != [] ==> Joined(enc, xs) != []
  {
    if xs != [] {
      var last := xs[|xs| - 1];
      assert enc(last) + [] == enc(last) && dec(enc(last) + []).Some?;
    }
  }

  /** Different lists never have the same bytes, whatever their lengths. */
  lemma {:induction false} JoinedInjective<T(!new), B(!new)>(
      fits: T -> bool, enc: T -> seq<B>, dec: Decoder<T, B>, p: seq<T>, q: seq<T>)
    requires Inverse(fits, enc, dec) && AllFit(fits, p) && AllFit(fits, q)
    requires Joined(enc, p) == Joined(enc, q)
    ensures p == q
    decreases |p| > |q|
  {
    if |p| > |q| {
      JoinedInjective(fits, enc, dec, q, p);
    } else {
      var begin, end := q[..|p|], q[|p|..];
      assert q == begin + end;
      JoinedNotEmpty(fits, enc, dec, end);
      JoinedSplits(enc, begin, end);
      assert Joined(enc, p) == Joined(enc, p) + [];
      JoinedIsTaken(fits, enc, dec, p, []);
      JoinedIsTaken(fits, enc, dec, begin, Joined(enc, end));
    }
  }
}
