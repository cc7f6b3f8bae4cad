/** Which schedules of rekeys and passphrase changes keep the vault, told from the order
    of their steps. */
module RekeySchedule {
  import opened Common
  import opened Tables
  import opened VaultSpec
  import opened Lifecycle
  import opened RekeyRace
  import Sealing

  /** The world among the first `n` events, and the content. */
  ghost function At(w: World, evs: seq<Event>, n: nat): World
    requires n <= |evs|
  {
    After(w, evs[..n])
  }

  function PlainAt(plain: Rows<Bytes>, evs: seq<Event>, n: nat): Rows<Bytes>
    requires n <= |evs|
  {
    AfterPlain(plain, evs[..n])
  }

  lemma OneMore(w: World, plain: Rows<Bytes>, evs: seq<Event>, n: nat)
    requires n < |evs|
    ensures At(w, evs, n + 1) == Next(At(w, evs, n), evs[n])
    ensures PlainAt(plain, evs, n + 1) == NextPlain(PlainAt(plain, evs, n), evs[n])
  {
    hide Next, NextPlain;
    assert evs[..n + 1] == evs[..n] + [evs[n]];
    AfterBoth(w, evs[..n], [evs[n]]);
    OneEvent(At(w, evs, n), evs[n]);
    PlainBoth(plain, evs[..n], evs[n]);
  }

  lemma {:induction false} PlainBoth(plain: Rows<Bytes>, a: seq<Event>, ev: Event)
    ensures AfterPlain(plain, a + [ev]) == NextPlain(AfterPlain(plain, a), ev)
    decreases |a|
  {
    hide NextPlain;
    if a == [] {
      assert a + [ev] == [ev];
      assert AfterPlain(NextPlain(plain, ev), [ev][1..]) == NextPlain(plain, ev);
    } else {
      assert (a + [ev])[1..] == a[1..] + [ev];
      PlainBoth(NextPlain(plain, a[0]), a[1..], ev);
    }
  }

  ghost predicate SoundAt(w: World, plain: Rows<Bytes>, evs: seq<Event>, n: nat)
    requires n <= |evs|
  {
    Sound(At(w, evs, n), PlainAt(plain, evs, n))
  }

  ghost predicate SoundUpTo(w: World, plain: Rows<Bytes>, evs: seq<Event>, n: nat)
    requires n <= |evs|
  {
    forall m | 0 <= m <= n :: SoundAt(w, plain, evs, m)
  }

  lemma {:induction false} StaysSoundAt(w: World, plain: Rows<Bytes>, evs: seq<Event>)
    ensures StaysSound(w, plain, evs) <==> SoundUpTo(w, plain, evs, |evs|)
    decreases |evs|
  {
    hide Sound, Next, NextPlain;
    assert SoundAt(w, plain, evs, 0) <==> Sound(w, plain);
    if evs != [] {
      var w', plain', later := Next(w, evs[0]), NextPlain(plain, evs[0]), evs[1..];
      StaysSoundAt(w', plain', later);
      forall n: nat | n < |evs| ensures SoundAt(w, plain, evs, n + 1) <==> SoundAt(w', plain', later, n) {
        assert evs[..n + 1][1..] == later[..n];
      }
      if SoundUpTo(w, plain, evs, |evs|) {
        forall n | 0 <= n <= |later| ensures SoundAt(w', plain', later, n) {
          assert SoundAt(w, plain, evs, n + 1);
        }
      }
      if Sound(w, plain) && SoundUpTo(w', plain', later, |later|) {
        forall n | 0 <= n <= |evs| ensures SoundAt(w, plain, evs, n) {
          assert n > 0 ==> SoundAt(w', plain', later, n - 1);
        }
      }
    }
  }

  // ---- the key along a run ----

  /** The event begins a passphrase change. */
  predicate Begins(w: World, ev: Event) {
    ev.Verify? && ev.call < |w.calls| && w.calls[ev.call].Idle?
  }

  /** The event is a commit that takes effect. */
  ghost predicate Replaces(w: World, ev: Event) {
    ReadyToCommit(w, ev) && Next(w, ev).calls[ev.call] == Ended(true)
  }

  /** A change that writes here wraps the current key. */
  predicate Current(w: World, ev: Event)
    requires Unlock(w.st, w.inForce).Ok?
  {
    ReadyToRewrap(w, ev) ==> w.calls[ev.call].dek == Key(w)
  }

  lemma KeyStep(w: World, plain: Rows<Bytes>, ev: Event)
    requires Sound(w, plain) && Current(w, ev)
    ensures Sound(Next(w, ev), NextPlain(plain, ev))
    ensures Key(Next(w, ev)) == if Replaces(w, ev) then ev.newDek else Key(w)
  {
    NextExactly(w, plain, ev);
    if ReadyToCommit(w, ev) {
      CommitExactly(w, plain, ev);
    } else if ReadyToRewrap(w, ev) {
      RewrapExactly(w, plain, ev);
    } else {
      OthersKeepKey(w, ev);
    }
    hide Sound, Next, NextPlain, AnyCiphertext, Unlock;
  }

  lemma OthersKeepKey(w: World, ev: Event)
    requires !ReadyToCommit(w, ev) && !ReadyToRewrap(w, ev) && Unlock(w.st, w.inForce).Ok?
    ensures Unlock(Next(w, ev).st, Next(w, ev).inForce) == Unlock(w.st, w.inForce)
  {
    hide Apply, Sealing.SealEdit;
  }

  /** All sound among the first `n` events, and every change wrapped the current key. */
  ghost predicate Smooth(w: World, plain: Rows<Bytes>, evs: seq<Event>, n: nat)
    requires n <= |evs|
  {
    SoundUpTo(w, plain, evs, n) && forall m | 0 <= m < n :: CurrentAt(w, evs, m)
  }

  ghost predicate CurrentAt(w: World, evs: seq<Event>, m: nat)
    requires m < |evs|
  {
    Unlock(At(w, evs, m).st, At(w, evs, m).inForce).Ok? && Current(At(w, evs, m), evs[m])
  }

  /** A commit takes effect from `a` on and before `n`. */
  ghost predicate Replaced(w: World, evs: seq<Event>, a: nat, n: nat)
    requires n <= |evs|
  {
    exists b :: a <= b < n && Replaces(At(w, evs, b), evs[b])
  }

  /** The call of the change begun at `a` holds the key of that time, if any. */
  lemma {:induction false} Holds(w: World, plain: Rows<Bytes>, evs: seq<Event>, a: nat, n: nat)
    requires a < n <= |evs| && SoundUpTo(w, plain, evs, n) && Begins(At(w, evs, a), evs[a])
    ensures var calls, i := At(w, evs, n).calls, evs[a].call;
      && SoundAt(w, plain, evs, a)
      && i < |calls| && !calls[i].Idle? && !calls[i].HasRow? && !calls[i].HasKey?
      && (calls[i].Verified? || calls[i].HasEpoch? ==> calls[i].dek == Key(At(w, evs, a)))
    decreases n
  {
    hide At, Next, Sound, SoundUpTo, Unlock, SoundAt;
    SoundBefore(w, plain, evs, n, a);
    OneMore(w, plain, evs, n - 1);
    if n - 1 > a {
      SoundBefore(w, plain, evs, n, n - 1);
      Holds(w, plain, evs, a, n - 1);
      CallMoves(At(w, evs, n - 1), evs[n - 1], evs[a].call);
    } else {
      ChangeBegins(At(w, evs, a), evs[a]);
    }
  }

  lemma SoundBefore(w: World, plain: Rows<Bytes>, evs: seq<Event>, n: nat, m: nat)
    requires m <= n <= |evs| && SoundUpTo(w, plain, evs, n)
    ensures SoundUpTo(w, plain, evs, m) && SoundAt(w, plain, evs, m)
    ensures Unlock(At(w, evs, m).st, At(w, evs, m).inForce).Ok?
  {
    assert SoundAt(w, plain, evs, m);
  }

  lemma ChangeBegins(w: World, ev: Event)
    requires Begins(w, ev) && Unlock(w.st, w.inForce).Ok?
    ensures var calls := Next(w, ev).calls;
      && |calls| == |w.calls| && (calls[ev.call].Verified? || calls[ev.call].Ended?)
      && (calls[ev.call].Verified? ==> calls[ev.call].dek == Key(w))
  {
  }

  /** A change in progress keeps the key it holds. */
  lemma CallMoves(w: World, ev: Event, i: nat)
    requires i < |w.calls| && !w.calls[i].Idle? && !w.calls[i].HasRow? && !w.calls[i].HasKey?
    ensures var calls := Next(w, ev).calls;
      && i < |calls| && !calls[i].Idle? && !calls[i].HasRow? && !calls[i].HasKey?
      && (calls[i].Verified? || calls[i].HasEpoch? ==>
           (w.calls[i].Verified? || w.calls[i].HasEpoch?) && calls[i].dek == w.calls[i].dek)
  {
    hide Unlock, VaultSpec.Reseal;
  }

  /** A change in progress was begun, if none was at first. */
  lemma {:induction false} WasBegun(w: World, plain: Rows<Bytes>, evs: seq<Event>, i: nat, n: nat) returns (a: nat)
    requires n <= |evs| && forall j | 0 <= j < |w.calls| :: w.calls[j].Idle?
    requires i < |At(w, evs, n).calls| && (At(w, evs, n).calls[i].Verified? || At(w, evs, n).calls[i].HasEpoch?)
    ensures a < n && Begins(At(w, evs, a), evs[a]) && evs[a].call == i
    decreases n
  {
    assert evs[..0] == [];
    assert n > 0;
    OneMore(w, plain, evs, n - 1);
    InProgressBefore(At(w, evs, n - 1), evs[n - 1], i);
    hide At, Next;
    if Begins(At(w, evs, n - 1), evs[n - 1]) && evs[n - 1].call == i {
      a := n - 1;
    } else {
      a := WasBegun(w, plain, evs, i, n - 1);
    }
  }

  lemma InProgressBefore(w: World, ev: Event, i: nat)
    requires var calls := Next(w, ev).calls; i < |calls| && (calls[i].Verified? || calls[i].HasEpoch?)
    ensures i < |w.calls|
    ensures (Begins(w, ev) && ev.call == i) || w.calls[i].Verified? || w.calls[i].HasEpoch?
  {
    hide Unlock, VaultSpec.Reseal;
  }

  lemma OneStep(w: World, plain: Rows<Bytes>, evs: seq<Event>, n: nat)
    requires n < |evs| && Smooth(w, plain, evs, n + 1)
    ensures SoundAt(w, plain, evs, n) && SoundAt(w, plain, evs, n + 1)
    ensures var (before, later) := (At(w, evs, n), At(w, evs, n + 1));
      Key(later) == if Replaces(before, evs[n]) then evs[n].newDek else Key(before)
    ensures Replaces(At(w, evs, n), evs[n]) ==> evs[n].Commit?
  {
    assert SoundAt(w, plain, evs, n) && SoundAt(w, plain, evs, n + 1) && CurrentAt(w, evs, n);
    OneMore(w, plain, evs, n);
    hide At, Next, Sound, Smooth;
    KeyStep(At(w, evs, n), PlainAt(plain, evs, n), evs[n]);
  }

  /** The key changes with the commits that take effect, and with nothing else. */
  lemma {:induction false} KeyKept(w: World, plain: Rows<Bytes>, evs: seq<Event>, a: nat, n: nat)
    requires a <= n <= |evs| && Smooth(w, plain, evs, n) && !Replaced(w, evs, a, n)
    ensures SoundAt(w, plain, evs, a) && SoundAt(w, plain, evs, n) && Key(At(w, evs, n)) == Key(At(w, evs, a))
    decreases n
  {
    assert SoundAt(w, plain, evs, a) && SoundAt(w, plain, evs, n);
    hide At, Next, Replaces;
    if n > a {
      KeyKept(w, plain, evs, a, n - 1);
      OneStep(w, plain, evs, n - 1);
      hide Sound, Smooth;
    }
  }

  // ---- no commit inside a change ----

  /** In the order of the steps no commit stands between the verification and the write
      of a change. */
  ghost predicate NoneBetween(evs: seq<Event>) {
    forall a, b, c :: !Between(evs, a, b, c)
  }

  predicate Between(evs: seq<Event>, a: int, b: int, c: int) {
    && 0 <= a < b < c < |evs|
    && evs[a].Verify? && evs[b].Commit? && evs[c].Rewrap? && evs[a].call == evs[c].call
  }

  predicate AllIdle(w: World) {
    forall j | 0 <= j < |w.calls| :: w.calls[j].Idle?
  }

  /** Whatever the passphrases, keys and content, a schedule in which no commit stands
      between the verification and the write of a passphrase change keeps the vault. */
  lemma OrderKeepsTheVault(w: World, plain: Rows<Bytes>, evs: seq<Event>)
    requires Sound(w, plain) && AllIdle(w) && NoneBetween(evs)
    ensures StaysSound(w, plain, evs)
  {
    StaysSoundAt(w, plain, evs);
    hide Sound, AllIdle, NoneBetween;
    SmoothByOrder(w, plain, evs, |evs|);
  }

  lemma {:induction false} SmoothByOrder(w: World, plain: Rows<Bytes>, evs: seq<Event>, n: nat)
    requires Sound(w, plain) && AllIdle(w) && NoneBetween(evs) && n <= |evs|
    ensures Smooth(w, plain, evs, n)
  {
    hide Sound, NoneBetween, Smooth, CurrentAt, AllIdle;
    if n > 0 {
      SmoothByOrder(w, plain, evs, n - 1);
      CurrentByOrder(w, plain, evs, n - 1);
      SmoothMore(w, plain, evs, n - 1);
    } else {
      SmoothAtFirst(w, plain, evs);
    }
  }

  lemma SmoothAtFirst(w: World, plain: Rows<Bytes>, evs: seq<Event>)
    requires Sound(w, plain)
    ensures Smooth(w, plain, evs, 0)
  {
    assert evs[..0] == [];
    hide Sound;
  }

  lemma SmoothMore(w: World, plain: Rows<Bytes>, evs: seq<Event>, n: nat)
    requires n < |evs| && Smooth(w, plain, evs, n) && CurrentAt(w, evs, n)
    ensures Smooth(w, plain, evs, n + 1)
  {
    assert SoundAt(w, plain, evs, n);
    OneMore(w, plain, evs, n);
    KeyStep(At(w, evs, n), PlainAt(plain, evs, n), evs[n]);
    hide Sound, At, PlainAt, Next, NextPlain, CurrentAt;
  }

  lemma NotReplacedByOrder(w: World, evs: seq<Event>, a: nat, n: nat)
    requires a < n < |evs| && evs[a].Verify? && evs[n].Rewrap? && evs[a].call == evs[n].call && NoneBetween(evs)
    ensures !Replaced(w, evs, a, n)
  {
    hide At;
    forall b | a <= b < n ensures !Replaces(At(w, evs, b), evs[b]) {
      assert !Between(evs, a, b, n);
    }
  }

  lemma CurrentByOrder(w: World, plain: Rows<Bytes>, evs: seq<Event>, n: nat)
    requires n < |evs| && AllIdle(w) && NoneBetween(evs) && Smooth(w, plain, evs, n)
    ensures CurrentAt(w, evs, n)
  {
    assert SoundAt(w, plain, evs, n);
    hide At, Sound;
    if ReadyToRewrap(At(w, evs, n), evs[n]) {
      var a := WasBegun(w, plain, evs, evs[n].call, n);
      Holds(w, plain, evs, a, n);
      NotReplacedByOrder(w, evs, a, n);
      hide Replaced, Smooth;
      KeyKept(w, plain, evs, a, n);
    }
  }

  // ---- with fresh keys, exactly ----

  /** Every commit draws a key that was never in force. */
  ghost predicate FreshKeys(w: World, evs: seq<Event>)
    requires Unlock(w.st, w.inForce).Ok?
  {
    && (forall b | 0 <= b < |evs| && evs[b].Commit? :: evs[b].newDek != Key(w))
    && (forall a, b | 0 <= a < b < |evs| && evs[a].Commit? && evs[b].Commit? :: evs[a].newDek != evs[b].newDek)
  }

  /** There is something to read all along. */
  ghost predicate Stocked(w: World, evs: seq<Event>) {
    forall n | 0 <= n <= |evs| :: AnyCiphertext(At(w, evs, n).st.rows)
  }

  /** Between the verification and the write of a change another call's commit takes
      effect. */
  ghost predicate Overtaken(w: World, evs: seq<Event>, a: int, b: int, c: int) {
    && 0 <= a < b < c < |evs|
    && Begins(At(w, evs, a), evs[a]) && Replaces(At(w, evs, b), evs[b]) && ReadyToRewrap(At(w, evs, c), evs[c])
    && evs[a].call == evs[c].call
  }

  /** The key in force was there at first, or drawn by one of the commits. */
  lemma {:induction false} KeyIsFrom(w: World, plain: Rows<Bytes>, evs: seq<Event>, n: nat)
    requires n <= |evs| && Smooth(w, plain, evs, n)
    ensures SoundAt(w, plain, evs, n) && SoundAt(w, plain, evs, 0) && At(w, evs, 0) == w
    ensures Key(At(w, evs, n)) == Key(w)
      || exists m :: 0 <= m < n && evs[m].Commit? && Key(At(w, evs, n)) == evs[m].newDek
    decreases n
  {
    assert evs[..0] == [];
    assert SoundAt(w, plain, evs, n) && SoundAt(w, plain, evs, 0);
    hide Sound, Next, Unlock;
    if n > 0 {
      KeyIsFrom(w, plain, evs, n - 1);
      hide At, Replaces;
      OneStep(w, plain, evs, n - 1);
    }
  }

  lemma DrawIsNew(w: World, plain: Rows<Bytes>, evs: seq<Event>, a: nat, b: nat)
    requires Unlock(w.st, w.inForce).Ok? && FreshKeys(w, evs)
    requires a <= b < |evs| && Smooth(w, plain, evs, a) && evs[b].Commit?
    ensures SoundAt(w, plain, evs, a) && Key(At(w, evs, a)) != evs[b].newDek
  {
    KeyIsFrom(w, plain, evs, a);
    hide Smooth, At, Sound, Unlock;
  }

  /** With fresh keys the key of an earlier time is in force exactly when no commit has
      taken effect since. */
  lemma {:induction false} KeyMoves(w: World, plain: Rows<Bytes>, evs: seq<Event>, a: nat, n: nat)
    requires Unlock(w.st, w.inForce).Ok? && FreshKeys(w, evs)
    requires a <= n <= |evs| && Smooth(w, plain, evs, n)
    ensures SoundAt(w, plain, evs, a) && SoundAt(w, plain, evs, n)
    ensures Key(At(w, evs, n)) == Key(At(w, evs, a)) <==> !Replaced(w, evs, a, n)
    decreases n
  {
    hide At, Next, Replaces, Replaced, FreshKeys, Smooth, Sound, SoundAt, Unlock;
    SmoothBefore(w, plain, evs, n, a);
    SmoothBefore(w, plain, evs, n, n);
    if n > a {
      SmoothBefore(w, plain, evs, n, n - 1);
      KeyMoves(w, plain, evs, a, n - 1);
      ReplacedMore(w, evs, a, n - 1);
      OneStep(w, plain, evs, n - 1);
      if Replaces(At(w, evs, n - 1), evs[n - 1]) {
        DrawIsNew(w, plain, evs, a, n - 1);
      }
    } else {
      NotReplacedYet(w, evs, n);
    }
  }

  lemma NotReplacedYet(w: World, evs: seq<Event>, n: nat)
    requires n <= |evs|
    ensures !Replaced(w, evs, n, n)
  {
  }

  lemma SmoothBefore(w: World, plain: Rows<Bytes>, evs: seq<Event>, n: nat, m: nat)
    requires m <= n <= |evs| && Smooth(w, plain, evs, n)
    ensures Smooth(w, plain, evs, m) && SoundAt(w, plain, evs, m)
    ensures Unlock(At(w, evs, m).st, At(w, evs, m).inForce).Ok?
  {
    assert SoundAt(w, plain, evs, m);
  }

  lemma ReplacedMore(w: World, evs: seq<Event>, a: nat, n: nat)
    requires a <= n < |evs|
    ensures Replaced(w, evs, a, n + 1) <==> Replaced(w, evs, a, n) || Replaces(At(w, evs, n), evs[n])
  {
    hide At, Replaces;
  }

  lemma {:induction false} SmoothIfSound(w: World, plain: Rows<Bytes>, evs: seq<Event>, n: nat)
    requires n <= |evs| && SoundUpTo(w, plain, evs, n) && Stocked(w, evs)
    ensures Smooth(w, plain, evs, n)
    decreases n
  {
    hide Sound, At, AnyCiphertext, CurrentAt;
    if n > 0 {
      SmoothIfSound(w, plain, evs, n - 1);
      assert SoundAt(w, plain, evs, n - 1) && SoundAt(w, plain, evs, n);
      CurrentAtIfSound(w, plain, evs, n - 1);
    }
  }

  lemma CurrentAtIfSound(w: World, plain: Rows<Bytes>, evs: seq<Event>, n: nat)
    requires n < |evs| && SoundAt(w, plain, evs, n) && SoundAt(w, plain, evs, n + 1) && Stocked(w, evs)
    ensures CurrentAt(w, evs, n)
  {
    OneMore(w, plain, evs, n);
    hide Sound, At, AnyCiphertext, Current, Next;
    CurrentIfSound(At(w, evs, n), PlainAt(plain, evs, n), evs[n]);
  }

  lemma CurrentIfSound(w: World, plain: Rows<Bytes>, ev: Event)
    requires Sound(w, plain) && AnyCiphertext(w.st.rows) && Sound(Next(w, ev), NextPlain(plain, ev))
    ensures Unlock(w.st, w.inForce).Ok? && Current(w, ev)
  {
    NextExactly(w, plain, ev);
    hide Sound, Next, NextPlain, AnyCiphertext;
  }

  lemma {:induction false} SmoothUnlessOvertaken(w: World, plain: Rows<Bytes>, evs: seq<Event>, n: nat)
    requires Sound(w, plain) && AllIdle(w) && n <= |evs| && forall a, b, c :: !Overtaken(w, evs, a, b, c)
    ensures Smooth(w, plain, evs, n)
  {
    hide Sound, Overtaken, Smooth, CurrentAt, AllIdle;
    if n > 0 {
      SmoothUnlessOvertaken(w, plain, evs, n - 1);
      CurrentUnlessOvertaken(w, plain, evs, n - 1);
      SmoothMore(w, plain, evs, n - 1);
    } else {
      SmoothAtFirst(w, plain, evs);
    }
  }

  lemma NotReplacedIfNotOvertaken(w: World, evs: seq<Event>, a: nat, n: nat)
    requires a < n < |evs| && Begins(At(w, evs, a), evs[a]) && ReadyToRewrap(At(w, evs, n), evs[n])
    requires evs[a].call == evs[n].call && forall b :: !Overtaken(w, evs, a, b, n)
    ensures !Replaced(w, evs, a, n)
  {
    hide At;
    forall b | a <= b < n ensures !Replaces(At(w, evs, b), evs[b]) {
      assert !Overtaken(w, evs, a, b, n);
    }
  }

  lemma CurrentUnlessOvertaken(w: World, plain: Rows<Bytes>, evs: seq<Event>, n: nat)
    requires n < |evs| && AllIdle(w) && Smooth(w, plain, evs, n) && forall a, b :: !Overtaken(w, evs, a, b, n)
    ensures CurrentAt(w, evs, n)
  {
    assert SoundAt(w, plain, evs, n);
    hide At, Sound;
    if ReadyToRewrap(At(w, evs, n), evs[n]) {
      var a := WasBegun(w, plain, evs, evs[n].call, n);
      Holds(w, plain, evs, a, n);
      NotReplacedIfNotOvertaken(w, evs, a, n);
      hide Replaced, Smooth, Overtaken;
      KeyKept(w, plain, evs, a, n);
    }
  }

  lemma NotOvertaken(w: World, plain: Rows<Bytes>, evs: seq<Event>, a: int, b: int, c: int)
    requires Unlock(w.st, w.inForce).Ok? && FreshKeys(w, evs) && Smooth(w, plain, evs, |evs|)
    ensures !Overtaken(w, evs, a, b, c)
  {
    hide At, Sound, FreshKeys, Replaces;
    if 0 <= a < c < |evs| && evs[a].Verify? && evs[c].Rewrap? && evs[a].call == evs[c].call {
      if Begins(At(w, evs, a), evs[a]) && ReadyToRewrap(At(w, evs, c), evs[c]) {
        assert Smooth(w, plain, evs, c) && CurrentAt(w, evs, c);
        Holds(w, plain, evs, a, c);
        KeyMoves(w, plain, evs, a, c);
        assert !Replaced(w, evs, a, c);
      }
    }
  }

  /** Over a store that is never empty, with fresh keys: the vault is kept exactly when
      no passphrase change is overtaken by a commit that takes effect. Over an empty
      store a replaced key does no harm. */
  lemma KeptUnlessOvertaken(w: World, plain: Rows<Bytes>, evs: seq<Event>)
    requires Sound(w, plain) && AllIdle(w) && FreshKeys(w, evs) && Stocked(w, evs)
    ensures StaysSound(w, plain, evs) <==> forall a, b, c :: !Overtaken(w, evs, a, b, c)
  {
    StaysSoundAt(w, plain, evs);
    assert Unlock(w.st, w.inForce).Ok?;
    hide Sound, AllIdle, FreshKeys, Stocked, StaysSound, Overtaken;
    if StaysSound(w, plain, evs) {
      SmoothIfSound(w, plain, evs, |evs|);
      forall a, b, c ensures !Overtaken(w, evs, a, b, c) {
        NotOvertaken(w, plain, evs, a, b, c);
      }
    } else if forall a, b, c :: !Overtaken(w, evs, a, b, c) {
      SmoothUnlessOvertaken(w, plain, evs, |evs|);
    }
  }
}
