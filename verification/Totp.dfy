/** One-time codes (RFC 6238): the three-step window with capture of the matched step. */
module Totp {
  import opened Common

  const PERIOD := 30

  /** The code of a secret at a time step; None where none can be generated. */
  type CodeFn = (Bytes, int) -> Option<string>

  /** A Unix time past the first period, so that no step of the window is negative. */
  type Clock = t: int | PERIOD <= t witness PERIOD

  datatype Verdict =
    | Accepted(step: int)
    | Refused
    | Broken                // the secret yields no code

  function Validate(codes: CodeFn, secret: Bytes, code: string, now: Clock, last: int): Verdict {
    TryOffsets([-1, 0, 1], codes, secret, code, now, last)
  }

  function TryOffsets(offsets: seq<int>, codes: CodeFn, secret: Bytes, code: string, now: Clock, last: int): Verdict {
    if offsets == [] then Refused
    else
      var step := (now + offsets[0] * PERIOD) / PERIOD;
      match codes(secret, step)
      case None => Broken
      case Some(want) =>
        if want == code then (if step <= last then Refused else Accepted(step))
        else TryOffsets(offsets[1..], codes, secret, code, now, last)
  }

  /** The window, written out: a code is accepted for the first of the three
      steps around `now` that it fits, and only if that step is unused. */
  lemma AcceptedExactly(codes: CodeFn, secret: Bytes, code: string, now: Clock, last: int, s: int)
    ensures var n := now / 30;
      Validate(codes, secret, code, now, last) == Accepted(s) <==>
        && n - 1 <= s <= n + 1
        && last < s
        && codes(secret, s) == Some(code)
        && forall k | n - 1 <= k < s :: codes(secret, k).Some? && codes(secret, k) != Some(code)
  {
    var n := now / PERIOD;
    Unroll(-1, [0, 1], codes, secret, code, now, last);
    Unroll(0, [1], codes, secret, code, now, last);
    Unroll(1, [], codes, secret, code, now, last);
    assert [-1] + [0, 1] == [-1, 0, 1] && [0] + [1] == [0, 1] && [1] + [] == [1];
  }

  lemma Unroll(d: int, rest: seq<int>, codes: CodeFn, secret: Bytes, code: string, now: Clock, last: int)
    ensures var step, later := now / PERIOD + d, TryOffsets(rest, codes, secret, code, now, last);
      TryOffsets([d] + rest, codes, secret, code, now, last) ==
        if codes(secret, step).None? then Broken
        else if codes(secret, step) != Some(code) then later
        else if step <= last then Refused else Accepted(step)
  {
    assert (now + d * PERIOD) / PERIOD == now / PERIOD + d;
    assert ([d] + rest)[1..] == rest;
  }
}
