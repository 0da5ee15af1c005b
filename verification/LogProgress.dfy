/** Handlers of log channels get on: opening, waiting, closing and leaving. */
module LogProgress {
  import opened LogChannel

  /** A close clears the flag of its channel; other flags, handlers, claims and callbacks stay as they are. */
  lemma CloseIsLocal(s: State, ch: Channel, t: State)
    requires Step(s, Close(ch), t)
    ensures Name(ch) !in t.held
    ensures forall c :: c != ch ==> (Name(c) in t.held <==> Name(c) in s.held)
    ensures t.handlers == s.handlers && t.claimed == s.claimed && t.callbacks == s.callbacks
  {
    forall c | c != ch ensures Name(c) != Name(ch) { if Name(c) == Name(ch) { NameInjective(c, ch); } }
  }

  /** Actions of one handler. */
  predicate Own(a: Action, h: nat)
  {
    match a
    case Begin(g, _) => g == h
    case Close(_) => false
    case Reset(_) => false
    case _ => a.h == h
  }

  /** After the first action, only `h` steps. */
  ghost predicate OnlySteps(actions: seq<Action>, first: nat, h: nat)
  {
    forall i :: first <= i < |actions| ==> Own(actions[i], h)
  }

  function Closed(s: State, ch: Channel): State { s.(held := s.held - {Name(ch)}) }

  function Left(s: State, h: nat, ch: Channel): State { To(s, h, Leaving(ch)).(held := s.held + {Name(ch)}) }

  function Silent(s: State, h: nat, ch: Channel): State
  {
    To(s, h, Unregistered(ch)).(callbacks := RemoveCallback(s.callbacks, Name(ch)))
  }

  function Free(s: State, h: nat, ch: Channel): State { To(s, h, Returned(ch)).(claimed := s.claimed - {ch}) }

  lemma CloseSteps(s: State, h: nat, ch: Channel)
    requires In(s, h) && s.handlers[h] == Waiting(ch)
    ensures var s1 := Closed(s, ch);
      var s2 := Left(s1, h, ch);
      var s3 := Silent(s2, h, ch);
      && Step(s, Close(ch), s1) && Step(s1, SpinExit(h), s2) && Step(s2, Unregister(h), s3)
      && Step(s3, Release(h), Free(s3, h, ch))
  {
  }

  /**
   When the client closes the channel a handler waits on, the handler can leave on its own: it returns, the channel is free
   again, its callback is gone, and everything else is as it was.
   */
  lemma CloseLetsHandlerReturn(s: State, h: nat, ch: Channel) returns (states: seq<State>, actions: seq<Action>)
    requires Inv(s) && In(s, h) && s.handlers[h] == Waiting(ch)
    ensures Run(states, actions) && states[0] == s
    ensures |actions| == 4 && actions[0] == Close(ch) && OnlySteps(actions, 1, h)
    ensures var t := states[|actions|];
      && t.handlers == s.handlers[h := Returned(ch)]
      && ch !in t.claimed && (forall c :: c != ch ==> (c in t.claimed <==> c in s.claimed))
      && (forall c :: c in t.callbacks <==> c in s.callbacks && c.name != Name(ch))
      && (forall c :: c in s.callbacks && c.name == Name(ch) ==> c.owner == h)
      && (forall c :: c != ch ==> (Name(c) in t.held <==> Name(c) in s.held))
  {
    CloseSteps(s, h, ch);
    var s1 := Closed(s, ch);
    var s2 := Left(s1, h, ch);
    var s3 := Silent(s2, h, ch);
    states, actions := [s, s1, s2, s3, Free(s3, h, ch)], [Close(ch), SpinExit(h), Unregister(h), Release(h)];
    RemoveCallbackExact(s.callbacks, Name(ch));
    CallbackIsOwn(s, h, ch);
    forall c | c != ch ensures Name(c) != Name(ch) { if Name(c) == Name(ch) { NameInjective(c, ch); } }
  }

  /** The callback of a channel belongs to the handler that waits on it. */
  lemma CallbackIsOwn(s: State, h: nat, ch: Channel)
    requires Inv(s) && In(s, h) && s.handlers[h] == Waiting(ch)
    ensures forall c :: c in s.callbacks && c.name == Name(ch) ==> c.owner == h
  {
    assert Listening(s, h, ch);
    assert Callback(Name(ch), h) in s.callbacks;
  }

  /** A new handler can open a free channel on its own: it waits with its callback registered and its flag set. */
  lemma FreeChannelOpens(s: State, h: nat, ch: Channel) returns (states: seq<State>, actions: seq<Action>)
    requires !In(s, h) && ch !in s.claimed
    ensures Run(states, actions) && states[0] == s && |actions| == 4 && actions[0] == Begin(h, ch) && OnlySteps(actions, 0, h)
    ensures var t := states[|actions|];
      && t.handlers == s.handlers[h := Waiting(ch)]
      && t.claimed == s.claimed + {ch} && t.held == s.held + {Name(ch)}
      && t.callbacks == s.callbacks + [Callback(Name(ch), h)]
  {
    var s1 := To(s, h, Loaded(ch, false));
    var s2 := To(s1, h, Claimed(ch)).(claimed := s1.claimed + {ch});
    var s3 := To(s2, h, Registered(ch)).(callbacks := s2.callbacks + [Callback(Name(ch), h)]);
    var s4 := To(s3, h, Waiting(ch)).(held := s3.held + {Name(ch)});
    states, actions := [s, s1, s2, s3, s4], [Begin(h, ch), Claim(h), Register(h), SetFlag(h)];
    assert Step(s, Begin(h, ch), s1) && Step(s1, Claim(h), s2) && Step(s2, Register(h), s3) && Step(s3, SetFlag(h), s4);
  }

  /** A new handler that finds its channel open can only return, and changes nothing else. */
  lemma OpenChannelIsLeft(s: State, h: nat, ch: Channel, t: State, a: Action, u: State)
    requires ch in s.claimed && Step(s, Begin(h, ch), t) && Own(a, h)
    ensures Step(t, a, u) <==> a == GiveUp(h) && u == s.(handlers := s.handlers[h := Returned(ch)])
  {
    if a == GiveUp(h) { assert To(t, h, Returned(ch)).handlers == s.handlers[h := Returned(ch)]; }
  }

  /** A handler that has found its channel open never claims it, even if the channel is free by then. */
  lemma SeenOpenNeverClaims(s: State, h: nat, ch: Channel, t: State, u: State, a: Action, v: State)
    requires ch in s.claimed && Step(s, Begin(h, ch), t)
    requires In(u, h) && u.handlers[h] == t.handlers[h] && Own(a, h) && Step(u, a, v)
    ensures a == GiveUp(h) && v == u.(handlers := u.handlers[h := Returned(ch)])
  {
  }

  /** While its flag is set, a waiting handler can only look again; once it is cleared, it can only leave. */
  lemma WaitingUntilCleared(s: State, h: nat, ch: Channel, a: Action, t: State)
    requires In(s, h) && s.handlers[h] == Waiting(ch) && Own(a, h) && Step(s, a, t)
    ensures if Name(ch) in s.held then a == SpinAgain(h) && t == s
            else a == SpinExit(h) && t.handlers == s.handlers[h := Leaving(ch)] && t.held == s.held + {Name(ch)}
  {
  }

  /** A handler that has not returned can always step. */
  lemma NeverStuck(s: State, h: nat) returns (a: Action, t: State)
    requires In(s, h) && !s.handlers[h].Returned?
    ensures Own(a, h) && Step(s, a, t)
  {
    var ch := s.handlers[h].ch;
    match s.handlers[h]
    case Loaded(_, _) => a, t := GiveUp(h), To(s, h, Returned(ch));
    case Claimed(_) => a, t := Register(h), To(s, h, Registered(ch)).(callbacks := s.callbacks + [Callback(Name(ch), h)]);
    case Registered(_) => a, t := SetFlag(h), To(s, h, Waiting(ch)).(held := s.held + {Name(ch)});
    case Waiting(_) =>
      if Name(ch) in s.held {
        a, t := SpinAgain(h), s;
      } else {
        a, t := SpinExit(h), To(s, h, Leaving(ch)).(held := s.held + {Name(ch)});
      }
    case Leaving(_) =>
      a, t := Unregister(h), To(s, h, Unregistered(ch)).(callbacks := RemoveCallback(s.callbacks, Name(ch)));
    case Unregistered(_) => a, t := Release(h), To(s, h, Returned(ch)).(claimed := s.claimed - {ch});
  }
}
