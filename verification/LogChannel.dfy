/**
 The handlers that open and close log channels, interleaved step by step on the shared atomics,
 together with the watcher that clears the channels of outdated clients. Each atomic access is
 one step, and steps are sequentially consistent.
 */
module LogChannel {

  datatype Prefix = LogTo | GTestLogTo

  datatype Channel = Channel(prefix: Prefix, client: string)

  function PrefixText(p: Prefix): string
  {
    match p
    case LogTo => "logTo"
    case GTestLogTo => "gtestLogTo"
  }

  /** The name of the log callback and of the flag that keeps its handler waiting. */
  function Name(c: Channel): string
  {
    PrefixText(c.prefix) + c.client
  }

  /** Callback names of different channels never collide, whatever the client ids. */
  lemma NameInjective(a: Channel, b: Channel)
    requires Name(a) == Name(b)
    ensures a == b
  {
    assert Name(a)[0] == PrefixText(a.prefix)[0] && Name(b)[0] == PrefixText(b.prefix)[0];
    var n := |PrefixText(a.prefix)|;
    assert Name(a)[n..] == a.client && Name(b)[n..] == b.client;
  }

  /** How far an open handler has got. */
  datatype Phase =
    | Loaded(ch: Channel, wasOpen: bool)
    | Claimed(ch: Channel)
    | Registered(ch: Channel)
    | Waiting(ch: Channel)
    | Leaving(ch: Channel)
    | Unregistered(ch: Channel)
    | Returned(ch: Channel)
  {
    /** Between the successful compare-exchange and the final store. */
    predicate Critical() { Claimed? || Registered? || Waiting? || Leaving? || Unregistered? }

    /** The callback of the handler is registered. */
    predicate Listening() { Registered? || Waiting? || Leaving? }
  }

  /** A registered callback points to data on the stack of the handler `owner`. */
  datatype Callback = Callback(name: string, owner: nat)

  datatype State = State(claimed: set<Channel>, held: set<string>, callbacks: seq<Callback>, handlers: map<nat, Phase>)

  const INIT := State({}, {}, [], map[])

  datatype Action =
    | Begin(h: nat, ch: Channel)
    | GiveUp(h: nat)
    | Claim(h: nat)
    | Register(h: nat)
    | SetFlag(h: nat)
    | SpinAgain(h: nat)
    | SpinExit(h: nat)
    | Unregister(h: nat)
    | Release(h: nat)
    | Close(ch: Channel)
    | Reset(ch: Channel)

  /** Removes the first callback of the given name. */
  function RemoveCallback(cs: seq<Callback>, name: string): seq<Callback>
  {
    if cs == [] then []
    else if cs[0].name == name then cs[1..]
    else [cs[0]] + RemoveCallback(cs[1..], name)
  }

  predicate In(s: State, h: nat) { h in s.handlers }

  function To(s: State, h: nat, p: Phase): State { s.(handlers := s.handlers[h := p]) }

  /** One step of the server. */
  ghost predicate Step(s: State, a: Action, t: State)
  {
    match a
    case Begin(h, ch) => !In(s, h) && t == To(s, h, Loaded(ch, ch in s.claimed))
    // the value was already set, or the weak compare-exchange failed, possibly spuriously
    case GiveUp(h) => In(s, h) && s.handlers[h].Loaded? && t == To(s, h, Returned(s.handlers[h].ch))
    case Claim(h) =>
      && In(s, h) && s.handlers[h].Loaded? && !s.handlers[h].wasOpen && s.handlers[h].ch !in s.claimed
      && t == To(s, h, Claimed(s.handlers[h].ch)).(claimed := s.claimed + {s.handlers[h].ch})
    case Register(h) =>
      && In(s, h) && s.handlers[h].Claimed?
      && t == To(s, h, Registered(s.handlers[h].ch)).(callbacks := s.callbacks + [Callback(Name(s.handlers[h].ch), h)])
    case SetFlag(h) =>
      && In(s, h) && s.handlers[h].Registered?
      && t == To(s, h, Waiting(s.handlers[h].ch)).(held := s.held + {Name(s.handlers[h].ch)})
    case SpinAgain(h) => In(s, h) && s.handlers[h].Waiting? && Name(s.handlers[h].ch) in s.held && t == s
    // the exchange that finds the flag cleared sets it again
    case SpinExit(h) =>
      && In(s, h) && s.handlers[h].Waiting? && Name(s.handlers[h].ch) !in s.held
      && t == To(s, h, Leaving(s.handlers[h].ch)).(held := s.held + {Name(s.handlers[h].ch)})
    case Unregister(h) =>
      && In(s, h) && s.handlers[h].Leaving?
      && t == To(s, h, Unregistered(s.handlers[h].ch)).(callbacks := RemoveCallback(s.callbacks, Name(s.handlers[h].ch)))
    case Release(h) =>
      && In(s, h) && s.handlers[h].Unregistered?
      && t == To(s, h, Returned(s.handlers[h].ch)).(claimed := s.claimed - {s.handlers[h].ch})
    case Close(ch) => t == s.(held := s.held - {Name(ch)})
    case Reset(ch) => t == s.(claimed := s.claimed - {ch})
  }

  /** A run: consecutive states and the steps between them. */
  ghost predicate Run(states: seq<State>, actions: seq<Action>)
  {
    && |states| == |actions| + 1
    && forall i :: 0 <= i < |actions| ==> Step(states[i], actions[i], states[i + 1])
  }

  predicate Critical(s: State, h: nat, ch: Channel)
  {
    In(s, h) && s.handlers[h].Critical() && s.handlers[h].ch == ch
  }

  predicate Listening(s: State, h: nat, ch: Channel)
  {
    In(s, h) && s.handlers[h].Listening() && s.handlers[h].ch == ch
  }

  /** At most one handler of a channel is between claim and release. */
  ghost predicate MutualExclusion(s: State)
  {
    forall g, h, ch :: Critical(s, g, ch) && Critical(s, h, ch) ==> g == h
  }

  /** Callbacks have distinct names, and the data of each belongs to a handler that has not returned. */
  ghost predicate CallbacksSound(s: State)
  {
    && (forall i, j :: 0 <= i < j < |s.callbacks| ==> s.callbacks[i].name != s.callbacks[j].name)
    && (forall i :: 0 <= i < |s.callbacks| ==> OwnedBy(s, s.callbacks[i]))
  }

  ghost predicate OwnedBy(s: State, c: Callback)
  {
    In(s, c.owner) && s.handlers[c.owner].Listening() && c.name == Name(s.handlers[c.owner].ch)
  }

  ghost predicate Safe(s: State) { MutualExclusion(s) && CallbacksSound(s) }

  /** The invariant of open and close steps. */
  ghost predicate Inv(s: State)
  {
    && Safe(s)
    && (forall h, ch :: Critical(s, h, ch) ==> ch in s.claimed)
    && (forall ch :: ch in s.claimed ==> exists h :: Critical(s, h, ch))
    && (forall h, ch :: Listening(s, h, ch) ==> Callback(Name(ch), h) in s.callbacks)
  }

  lemma InitInv()
    ensures Inv(INIT)
  {
  }

  ghost predicate DistinctCallbacks(cs: seq<Callback>)
  {
    forall i, j :: 0 <= i < j < |cs| ==> cs[i].name != cs[j].name
  }

  lemma {:induction false} RemoveCallbackExact(cs: seq<Callback>, name: string)
    requires DistinctCallbacks(cs)
    ensures DistinctCallbacks(RemoveCallback(cs, name))
    ensures forall c :: c in RemoveCallback(cs, name) <==> c in cs && c.name != name
  {
    if cs != [] {
      assert forall c :: c in cs <==> c == cs[0] || c in cs[1..];
      if cs[0].name == name {
        forall c | c in cs[1..] ensures c.name != name {
          var i :| 0 <= i < |cs[1..]| && cs[1..][i] == c;
          assert cs[i + 1] == c;
        }
      } else {
        RemoveCallbackExact(cs[1..], name);
        var rest := RemoveCallback(cs[1..], name);
        forall i | 0 <= i < |rest| ensures rest[i].name != cs[0].name {
          assert rest[i] in cs[1..];
          var k :| 0 <= k < |cs[1..]| && cs[1..][k] == rest[i];
          assert cs[k + 1] == rest[i];
        }
      }
    }
  }

  /** Every open or close step keeps the invariant. */
  lemma StepKeepsInv(s: State, a: Action, t: State)
    requires Inv(s) && Step(s, a, t) && !a.Reset?
    ensures Inv(t)
  {
    match a
    case Claim(h) => ClaimKeepsInv(s, h, t);
    case Register(h) => RegisterKeepsInv(s, h, t);
    case Unregister(h) => UnregisterKeepsInv(s, h, t);
    case Release(h) => ReleaseKeepsInv(s, h, t);
    case Close(_) => SameHandlersKeepInv(s, t);
    case Begin(h, _) => PhaseChangeKeepsInv(s, h, t);
    case GiveUp(h) => PhaseChangeKeepsInv(s, h, t);
    case SetFlag(h) => PhaseChangeKeepsInv(s, h, t);
    case SpinAgain(h) => SameHandlersKeepInv(s, t);
    case SpinExit(h) => PhaseChangeKeepsInv(s, h, t);
  }

  /** The flags play no part in the invariant. */
  lemma SameHandlersKeepInv(s: State, t: State)
    requires Inv(s) && t.handlers == s.handlers && t.claimed == s.claimed && t.callbacks == s.callbacks
    ensures Inv(t)
  {
    forall h, ch ensures Critical(t, h, ch) == Critical(s, h, ch) && Listening(t, h, ch) == Listening(s, h, ch) {}
    forall ch | ch in t.claimed ensures exists h :: Critical(t, h, ch) {
      var h :| Critical(s, h, ch);
      assert Critical(t, h, ch);
    }
    forall i | 0 <= i < |t.callbacks| ensures OwnedBy(t, t.callbacks[i]) { assert OwnedBy(s, s.callbacks[i]); }
  }

  /** Steps that move one handler without changing whether it is critical or listening. */
  lemma PhaseChangeKeepsInv(s: State, h: nat, t: State)
    requires Inv(s) && In(t, h) && t.claimed == s.claimed && t.callbacks == s.callbacks
    requires t.handlers == s.handlers[h := t.handlers[h]]
    requires forall ch :: Critical(t, h, ch) == Critical(s, h, ch)
    requires forall ch :: Listening(t, h, ch) == Listening(s, h, ch)
    ensures Inv(t)
  {
    forall g, ch ensures Critical(t, g, ch) == Critical(s, g, ch) && Listening(t, g, ch) == Listening(s, g, ch) {
      if g != h { assert In(t, g) == In(s, g); }
    }
    forall ch | ch in t.claimed ensures exists g :: Critical(t, g, ch) {
      var g :| Critical(s, g, ch);
      assert Critical(t, g, ch);
    }
    forall i | 0 <= i < |t.callbacks| ensures OwnedBy(t, t.callbacks[i]) {
      var c := s.callbacks[i];
      assert OwnedBy(s, c);
      var ch := s.handlers[c.owner].ch;
      assert Listening(s, c.owner, ch) && Listening(t, c.owner, ch);
    }
  }

  lemma ClaimKeepsInv(s: State, h: nat, t: State)
    requires Inv(s) && Step(s, Claim(h), t)
    ensures Inv(t)
  {
    var c := s.handlers[h].ch;
    forall g, ch ensures Critical(t, g, ch) == (Critical(s, g, ch) || (g == h && ch == c))
      && Listening(t, g, ch) == Listening(s, g, ch) {}
    forall ch | ch in t.claimed ensures exists g :: Critical(t, g, ch) {
      if ch == c {
        assert Critical(t, h, ch);
      } else {
        var g :| Critical(s, g, ch);
        assert Critical(t, g, ch);
      }
    }
    forall i | 0 <= i < |t.callbacks| ensures OwnedBy(t, t.callbacks[i]) { assert OwnedBy(s, s.callbacks[i]); }
  }

  lemma RegisterKeepsInv(s: State, h: nat, t: State)
    requires Inv(s) && Step(s, Register(h), t)
    ensures Inv(t)
  {
    var c := s.handlers[h].ch;
    assert Critical(s, h, c);
    forall g, ch ensures Critical(t, g, ch) == Critical(s, g, ch)
      && Listening(t, g, ch) == (Listening(s, g, ch) || (g == h && ch == c)) {}
    forall ch | ch in t.claimed ensures exists g :: Critical(t, g, ch) {
      var g :| Critical(s, g, ch);
      assert Critical(t, g, ch);
    }
    forall i | 0 <= i < |s.callbacks| ensures s.callbacks[i].name != Name(c) && OwnedBy(t, s.callbacks[i]) {
      var cb := s.callbacks[i];
      assert OwnedBy(s, cb);
      var ch := s.handlers[cb.owner].ch;
      if cb.name == Name(c) {
        NameInjective(ch, c);
        assert Critical(s, cb.owner, c);
      }
    }
    assert OwnedBy(t, Callback(Name(c), h));
    forall g, ch | Listening(t, g, ch) ensures Callback(Name(ch), g) in t.callbacks {
      if g != h { assert Listening(s, g, ch); }
    }
  }

  lemma UnregisterKeepsInv(s: State, h: nat, t: State)
    requires Inv(s) && Step(s, Unregister(h), t)
    ensures Inv(t)
  {
    var c := s.handlers[h].ch;
    assert Critical(s, h, c) && Listening(s, h, c);
    assert DistinctCallbacks(s.callbacks);
    RemoveCallbackExact(s.callbacks, Name(c));
    forall g, ch ensures Critical(t, g, ch) == Critical(s, g, ch)
      && Listening(t, g, ch) == (Listening(s, g, ch) && g != h) {}
    forall ch | ch in t.claimed ensures exists g :: Critical(t, g, ch) {
      var g :| Critical(s, g, ch);
      assert Critical(t, g, ch);
    }
    forall i | 0 <= i < |t.callbacks| ensures OwnedBy(t, t.callbacks[i]) {
      var cb := t.callbacks[i];
      assert cb in s.callbacks && cb.name != Name(c);
      assert OwnedBy(s, cb);
    }
    forall g, ch | Listening(t, g, ch) ensures Callback(Name(ch), g) in t.callbacks {
      assert Listening(s, g, ch) && Critical(s, g, ch);
      if Name(ch) == Name(c) { NameInjective(ch, c); }
    }
  }

  lemma ReleaseKeepsInv(s: State, h: nat, t: State)
    requires Inv(s) && Step(s, Release(h), t)
    ensures Inv(t)
  {
    var c := s.handlers[h].ch;
    assert Critical(s, h, c);
    forall g, ch ensures Critical(t, g, ch) == (Critical(s, g, ch) && g != h)
      && Listening(t, g, ch) == Listening(s, g, ch) {}
    forall ch | ch in t.claimed ensures exists g :: Critical(t, g, ch) {
      var g :| Critical(s, g, ch);
      assert Critical(t, g, ch);
    }
    forall i | 0 <= i < |t.callbacks| ensures OwnedBy(t, t.callbacks[i]) { assert OwnedBy(s, s.callbacks[i]); }
  }

  // ---- whole runs

  /** Clearing a channel nobody holds changes nothing that matters. */
  lemma ResetOfFreeChannel(s: State, ch: Channel, t: State)
    requires Inv(s) && Step(s, Reset(ch), t) && forall h :: !Critical(s, h, ch)
    ensures t == s
  {
    assert ch !in s.claimed;
    assert t.claimed == s.claimed;
  }

  /** The watcher only ever clears channels that no handler holds. */
  ghost predicate ResetsAreFree(states: seq<State>, actions: seq<Action>)
    requires Run(states, actions)
  {
    forall i, h :: 0 <= i < |actions| && actions[i].Reset? ==> !Critical(states[i], h, actions[i].ch)
  }

  /** In every interleaving the server is safe at all times, as long as only free channels are cleared. */
  lemma {:induction false} RunsAreSafe(states: seq<State>, actions: seq<Action>, n: nat)
    requires Run(states, actions) && ResetsAreFree(states, actions) && Inv(states[0]) && n < |states|
    ensures Inv(states[n]) && Safe(states[n])
  {
    if n > 0 {
      RunsAreSafe(states, actions, n - 1);
      assert Step(states[n - 1], actions[n - 1], states[n]);
      if actions[n - 1].Reset? {
        var m, before, ch := n - 1, states[n - 1], actions[n - 1].ch;
        forall h ensures !Critical(before, h, ch) { assert actions[m].Reset?; }
        ResetOfFreeChannel(before, ch, states[n]);
      } else {
        StepKeepsInv(states[n - 1], actions[n - 1], states[n]);
      }
    }
  }

  /** Every run from the start, with free resets, is safe at all times. */
  lemma RunsFromStartAreSafe(states: seq<State>, actions: seq<Action>)
    requires Run(states, actions) && states[0] == INIT && ResetsAreFree(states, actions)
    ensures AllSafe(states)
  {
    InitInv();
    forall n | 0 <= n < |states| ensures Safe(states[n]) { RunsAreSafe(states, actions, n); }
  }

  /** Every run of open and close steps from `s` stays safe. */
  ghost predicate AlwaysSafe(s: State)
  {
    forall states, actions :: Run(states, actions) && states[0] == s && NoResets(actions) ==> AllSafe(states)
  }

  ghost predicate NoResets(actions: seq<Action>) { forall i :: 0 <= i < |actions| ==> !actions[i].Reset? }

  ghost predicate AllSafe(states: seq<State>) { forall i :: 0 <= i < |states| ==> Safe(states[i]) }

  /**
   Clearing a channel keeps later opens and closes safe exactly when no handler holds the channel;
   the watcher does not look whether one does.
   */
  lemma ResetSafeIffFree(s: State, ch: Channel, t: State)
    requires Inv(s) && Step(s, Reset(ch), t)
    ensures AlwaysSafe(t) <==> forall h :: !Critical(s, h, ch)
  {
    if h :| Critical(s, h, ch) {
      SecondOpener(s, h, ch, t);
    } else {
      ResetOfFreeChannel(s, ch, t);
      forall states, actions | Run(states, actions) && states[0] == t && NoResets(actions)
        ensures AllSafe(states)
      {
        forall n | 0 <= n < |states| ensures Safe(states[n]) { RunsAreSafe(states, actions, n); }
      }
    }
  }

  lemma {:induction false} FreshHandler(m: map<nat, Phase>) returns (g: nat)
    ensures g !in m
  {
    g := 0;
    var below: set<nat> := {};
    while g in m
      invariant below <= m.Keys && |below| == g
      invariant forall k :: k in below ==> k < g
      decreases |m.Keys| - g
    {
      below := below + {g};
      SubsetSize(below, m.Keys);
      g := g + 1;
    }
  }

  lemma {:induction false} SubsetSize<T>(a: set<T>, b: set<T>)
    requires a <= b
    ensures |a| <= |b|
  {
    if a != {} {
      var x :| x in a;
      SubsetSize(a - {x}, b - {x});
    }
  }

  /** After a held channel is cleared, a second handler can claim it while the first still waits. */
  lemma SecondOpener(s: State, h: nat, ch: Channel, t: State)
    requires Inv(s) && Step(s, Reset(ch), t) && Critical(s, h, ch)
    ensures !AlwaysSafe(t)
  {
    var g := FreshHandler(t.handlers);
    var t1 := To(t, g, Loaded(ch, false));
    var t2 := To(t1, g, Claimed(ch)).(claimed := t1.claimed + {ch});
    var states, actions := [t, t1, t2], [Begin(g, ch), Claim(g)];
    assert Step(t, Begin(g, ch), t1) && Step(t1, Claim(g), t2);
    assert Run(states, actions);
    assert Critical(t2, g, ch) && Critical(t2, h, ch) && g != h;
    assert !Safe(states[2]);
    assert !AllSafe(states);
  }

  /** Clearing a held channel is possible: one opener gets as far as waiting, and the watcher steps in. */
  lemma WatcherBreaksExclusion(ch: Channel)
    ensures exists states, actions :: Run(states, actions) && states[0] == INIT && !AllSafe(states)
  {
    var s1 := To(INIT, 0, Loaded(ch, false));
    var s2 := To(s1, 0, Claimed(ch)).(claimed := {ch});
    var s3 := s2.(claimed := {});
    var s4 := To(s3, 1, Loaded(ch, false));
    var s5 := To(s4, 1, Claimed(ch)).(claimed := {ch});
    var states := [INIT, s1, s2, s3, s4, s5];
    var actions := [Begin(0, ch), Claim(0), Reset(ch), Begin(1, ch), Claim(1)];
    assert s2.claimed == s1.claimed + {ch} && s3.claimed == s2.claimed - {ch} && s5.claimed == s4.claimed + {ch};
    assert Run(states, actions);
    assert Critical(s5, 0, ch) && Critical(s5, 1, ch);
    assert !Safe(states[5]);
  }

  // ---- leaving the spin

  /** Without a close of the channel, a flag that is set stays set. */
  lemma {:induction false} FlagStays(states: seq<State>, actions: seq<Action>, ch: Channel, i: nat, j: nat)
    requires Run(states, actions) && i <= j < |states| && Name(ch) in states[i].held
    requires forall k :: i <= k < j ==> actions[k] != Close(ch)
    ensures Name(ch) in states[j].held
    decreases j
  {
    if i < j {
      FlagStays(states, actions, ch, i, j - 1);
      assert Step(states[j - 1], actions[j - 1], states[j]);
      if actions[j - 1].Close? && Name(actions[j - 1].ch) == Name(ch) { NameInjective(actions[j - 1].ch, ch); }
    }
  }

  /** A waiting handler has set its flag, and has been waiting ever since. */
  lemma {:induction false} WaitingHasSetFlag(states: seq<State>, actions: seq<Action>, h: nat, ch: Channel, n: nat) returns (i: nat)
    requires Run(states, actions) && states[0] == INIT && n < |states|
    requires In(states[n], h) && states[n].handlers[h] == Waiting(ch)
    ensures i < n && actions[i] == SetFlag(h) && In(states[i], h) && states[i].handlers[h] == Registered(ch)
    decreases n
  {
    assert n > 0;
    assert Step(states[n - 1], actions[n - 1], states[n]);
    if actions[n - 1] == SetFlag(h) {
      i := n - 1;
    } else {
      i := WaitingHasSetFlag(states, actions, h, ch, n - 1);
    }
  }

  /** In every run, a handler leaves the spin only after a close of its channel that followed its own flag set. */
  lemma SpinExitFollowsClose(states: seq<State>, actions: seq<Action>, h: nat, j: nat) returns (i: nat, k: nat)
    requires Run(states, actions) && states[0] == INIT && j < |actions| && actions[j] == SpinExit(h)
    ensures i < k < j && actions[i] == SetFlag(h)
    ensures In(states[j], h) && actions[k] == Close(states[j].handlers[h].ch)
  {
    assert Step(states[j], actions[j], states[j + 1]);
    var ch := states[j].handlers[h].ch;
    i := WaitingHasSetFlag(states, actions, h, ch, j);
    assert Step(states[i], actions[i], states[i + 1]);
    if forall k :: i + 1 <= k < j ==> actions[k] != Close(ch) {
      FlagStays(states, actions, ch, i + 1, j);
      assert false;
    }
    k :| i + 1 <= k < j && actions[k] == Close(ch);
  }
}
