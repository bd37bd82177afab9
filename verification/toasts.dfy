/** The toast queue (main.cpp:67-114): `AddToast` appends to a FIFO of at most
    four notifications, and the bookkeeping half of `DrawToasts` drops the
    toasts whose life is over and computes the fade of the others. Layout and
    drawing are not modelled; expiry is kept apart from them. */
module Toasts {
  import opened Wrappers
  import opened Numeric

  /** An `ImVec4` colour. */
  datatype Color = Color(r: real, g: real, b: real, a: real)

  datatype Toast = Toast(message: Bytes, color: Color, startTime: real, duration: real)

  const MaxToasts: nat := 4
  const ToastDuration: real := 3.0

  /** What every queue built by `AddToast` satisfies: at most four toasts,
      each living three seconds. */
  predicate WellFormed(q: seq<Toast>) {
    |q| <= MaxToasts && forall i :: 0 <= i < |q| ==> q[i].duration == ToastDuration
  }

  predicate PositiveDurations(q: seq<Toast>) {
    forall i :: 0 <= i < |q| ==> q[i].duration > 0.0
  }

  /** `AddToast` (main.cpp:74-84): at four or more entries the oldest (index
      0) is erased; the new toast, started now and lasting three seconds, goes
      at the back. The older toasts kept are the newest ones, in order. */
  function AddToast(q: seq<Toast>, message: Bytes, color: Color, now: real): (r: seq<Toast>)
    ensures |r| == if |q| >= MaxToasts then |q| else |q| + 1
    ensures r[|r| - 1] == Toast(message, color, now, ToastDuration)
    ensures r[..|r| - 1] == q[|q| - (|r| - 1)..]
  {
    var kept := if |q| >= MaxToasts then q[1..] else q;
    kept + [Toast(message, color, now, ToastDuration)]
  }

  /** Adding keeps the queue well formed, and its size becomes
      min(old size + 1, 4). */
  lemma AddToastWellFormed(q: seq<Toast>, message: Bytes, color: Color, now: real)
    requires WellFormed(q)
    ensures WellFormed(AddToast(q, message, color, now))
    ensures |AddToast(q, message, color, now)| == if |q| == MaxToasts then MaxToasts else |q| + 1
  {
    var r := AddToast(q, message, color, now);
    forall i | 0 <= i < |r|
      ensures r[i].duration == ToastDuration
    {
      if i < |r| - 1 {
        assert r[i] == r[..|r| - 1][i];
      }
    }
  }

  /** At capacity, the oldest toast is evicted and the rest shift forward. */
  lemma AddToastAtCapacity(q: seq<Toast>, message: Bytes, color: Color, now: real)
    requires |q| == MaxToasts
    ensures AddToast(q, message, color, now) == q[1..] + [Toast(message, color, now, ToastDuration)]
  {
    var r := AddToast(q, message, color, now);
    assert r == r[..|r| - 1] + [r[|r| - 1]];
  }

  /** Normalised age `(now - start_time) / duration` of main.cpp:93. */
  function Age(t: Toast, now: real): real
    requires t.duration > 0.0
  {
    (now - t.startTime) / t.duration
  }

  predicate Expired(t: Toast, now: real)
    requires t.duration > 0.0
  {
    Age(t, now) >= 1.0
  }

  /** The toasts that outlive the expiry pass, in their original order. */
  function Survivors(q: seq<Toast>, now: real): (r: seq<Toast>)
    requires PositiveDurations(q)
    ensures |r| <= |q|
    ensures PositiveDurations(r)
  {
    if q == [] then []
    else (if Expired(q[0], now) then [] else [q[0]]) + Survivors(q[1..], now)
  }

  /** A toast survives exactly when it was in the queue and is not expired. */
  lemma {:induction false} SurvivorsMembership(q: seq<Toast>, now: real, t: Toast)
    requires PositiveDurations(q)
    ensures t in Survivors(q, now) <==> t in q && !Expired(t, now)
  {
    if q != [] {
      SurvivorsMembership(q[1..], now, t);
      assert q == [q[0]] + q[1..];
    }
  }

  lemma PositiveDurationsAppend(a: seq<Toast>, b: seq<Toast>)
    requires PositiveDurations(a) && PositiveDurations(b)
    ensures PositiveDurations(a + b)
  {
    forall i | 0 <= i < |a + b|
      ensures (a + b)[i].duration > 0.0
    {
      if i < |a| {
        assert (a + b)[i] == a[i];
      } else {
        assert (a + b)[i] == b[i - |a|];
      }
    }
  }

  /** The pass filters piecewise, so survivors keep their relative order. */
  lemma {:induction false} SurvivorsAppend(a: seq<Toast>, b: seq<Toast>, now: real)
    requires PositiveDurations(a) && PositiveDurations(b)
    ensures PositiveDurations(a + b)
    ensures Survivors(a + b, now) == Survivors(a, now) + Survivors(b, now)
  {
    PositiveDurationsAppend(a, b);
    if a == [] {
      assert a + b == b;
    } else {
      var ab := a + b;
      assert ab[0] == a[0];
      assert ab[1..] == a[1..] + b;
      SurvivorsAppend(a[1..], b, now);
    }
  }

  /** With nothing expired, the pass changes nothing. */
  lemma {:induction false} SurvivorsNoneExpired(q: seq<Toast>, now: real)
    requires PositiveDurations(q)
    requires forall i :: 0 <= i < |q| ==> !Expired(q[i], now)
    ensures Survivors(q, now) == q
  {
    if q != [] {
      SurvivorsNoneExpired(q[1..], now);
      assert q == [q[0]] + q[1..];
    }
  }

  lemma {:induction false} SurvivorsWellFormed(q: seq<Toast>, now: real)
    requires WellFormed(q)
    ensures WellFormed(Survivors(q, now))
  {
    if q != [] {
      SurvivorsWellFormed(q[1..], now);
    }
  }

  /** The fade envelope of main.cpp:98-104 at normalised age `t`. */
  function FadeAlpha(t: real): (a: real)
    ensures 0.0 <= a <= 1.0
  {
    var raw := if t < 0.1 then t / 0.1 else if t > 0.85 then (1.0 - t) / 0.15 else 1.0;
    Clamp(raw, 0.0, 1.0)
  }

  /** During a toast's life the clamp never binds: a linear rise over the
      first tenth, a plateau at 1, a linear fall over the last 15%. */
  lemma FadeEnvelope(t: real)
    requires 0.0 <= t <= 1.0
    ensures t < 0.1 ==> FadeAlpha(t) == t / 0.1
    ensures t > 0.85 ==> FadeAlpha(t) == (1.0 - t) / 0.15
    ensures 0.1 <= t <= 0.85 ==> FadeAlpha(t) == 1.0
  {
  }

  /** Fully transparent when born and at the end of life, fully opaque at
      both ends of the plateau. */
  lemma FadeKeyPoints()
    ensures FadeAlpha(0.0) == 0.0 && FadeAlpha(0.1) == 1.0
    ensures FadeAlpha(0.85) == 1.0 && FadeAlpha(1.0) == 0.0
  {
  }

  /** Fading in never dims, fading out never brightens. */
  lemma FadeMonotone(s: real, t: real)
    requires s <= t
    ensures t <= 0.1 ==> FadeAlpha(s) <= FadeAlpha(t)
    ensures 0.85 <= s ==> FadeAlpha(s) >= FadeAlpha(t)
  {
  }

  /** One step of the pass from the back: the survivors from index `i` on
      are toast `i` (unless expired) followed by the survivors after it. */
  lemma SurvivorsFrom(q: seq<Toast>, i: nat, now: real)
    requires PositiveDurations(q) && i < |q|
    ensures PositiveDurations(q[i..]) && PositiveDurations(q[i + 1..])
    ensures Survivors(q[i..], now) ==
      (if Expired(q[i], now) then [] else [q[i]]) + Survivors(q[i + 1..], now)
  {
    assert q[i..][0] == q[i] && q[i..][1..] == q[i + 1..];
  }

  /** Erasing index `i` of `q[..i + 1] + rest` leaves `q[..i] + rest`. */
  lemma EraseAt(q: seq<Toast>, i: nat, rest: seq<Toast>)
    requires i < |q|
    ensures (q[..i + 1] + rest)[i] == q[i]
    ensures (q[..i + 1] + rest)[..i] + (q[..i + 1] + rest)[i + 1..] == q[..i] + rest
    ensures q[..i + 1] + rest == q[..i] + ([q[i]] + rest)
  {
    var s := q[..i + 1] + rest;
    assert s[..i] == q[..i];
    assert s[i + 1..] == rest;
  }

  /** `alphas[k]` is the fade of toast `k` of `kept`. */
  predicate AlphasFor(alphas: seq<real>, kept: seq<Toast>, now: real)
    requires PositiveDurations(kept)
  {
    |alphas| == |kept| && forall k :: 0 <= k < |kept| ==> alphas[k] == FadeAlpha(Age(kept[k], now))
  }

  lemma AlphasCons(alphas: seq<real>, t: Toast, kept: seq<Toast>, now: real)
    requires t.duration > 0.0 && PositiveDurations(kept) && AlphasFor(alphas, kept, now)
    ensures PositiveDurations([t] + kept)
    ensures AlphasFor([FadeAlpha(Age(t, now))] + alphas, [t] + kept, now)
  {
    var a, s := [FadeAlpha(Age(t, now))] + alphas, [t] + kept;
    forall k | 0 <= k < |s|
      ensures s[k].duration > 0.0 && a[k] == FadeAlpha(Age(s[k], now))
    {
      if k > 0 {
        assert s[k] == kept[k - 1] && a[k] == alphas[k - 1];
      }
    }
  }

  /** The expiry and fade pass of `DrawToasts` (main.cpp:90-104): indices are
      visited from the back so that an erase never shifts an index still to
      be visited. `kept` are the survivors, and `alphas[k]` is the fade of
      `kept[k]` (the C++ draws them from the back). */
  method ExpireToasts(q: seq<Toast>, now: real) returns (kept: seq<Toast>, alphas: seq<real>)
    requires PositiveDurations(q)
    ensures kept == Survivors(q, now)
    ensures forall t :: t in kept <==> t in q && !Expired(t, now)
    ensures |alphas| == |kept|
    ensures forall k :: 0 <= k < |kept| ==> alphas[k] == FadeAlpha(Age(kept[k], now))
    ensures forall k :: 0 <= k < |alphas| ==> 0.0 <= alphas[k] <= 1.0
  {
    kept := q;
    alphas := [];
    var i := |q| - 1;
    while i >= 0
      invariant -1 <= i < |q|
      invariant kept == q[..i + 1] + Survivors(q[i + 1..], now)
      invariant AlphasFor(alphas, Survivors(q[i + 1..], now), now)
    {
      var rest := Survivors(q[i + 1..], now);
      SurvivorsFrom(q, i, now);
      EraseAt(q, i, rest);
      var t := Age(kept[i], now);
      if t >= 1.0 {
        kept := kept[..i] + kept[i + 1..];
      } else {
        AlphasCons(alphas, q[i], rest, now);
        alphas := [FadeAlpha(t)] + alphas;
      }
      i := i - 1;
    }
    assert q[..0] == [] && q[0..] == q;
    forall t: Toast
      ensures t in kept <==> t in q && !Expired(t, now)
    {
      SurvivorsMembership(q, now, t);
    }
  }
}
