/** The limiter that keeps a link from being bounced too often: a guard that is asked
    on every link message, and a bounce that a fault or a quiesce may still skip. */
module LinkBounce {
  import opened Numbers

  datatype Settings = Settings(interval: int, attempts: int, reattempt: int)

  /** `began` is the clock reading that let the bounce through, `marked` the one that
      was recorded when the link was up again, and `done` the last one. */
  datatype Bounce = Bounce(began: int, marked: int, done: int)

  /** The limiter's fields, with the bounces so far and the latest clock reading. */
  datatype Limiter = Limiter(bounceAttempts: int, lastBounce: int, lastBounceReattempt: int,
                             bounces: seq<Bounce>, now: int)

  const INITIAL := Limiter(0, 0, 0, [], 0)

  /** One link message with the clock readings taken while it is handled. */
  datatype NewLink = NewLink(hasLink: bool, mayRepair: bool, faultInjected: bool, quiesced: bool,
                             asked: int, bounced: int, reattempted: int)

  predicate OnTime(s: Limiter, m: NewLink) {
    s.now <= m.asked <= m.bounced <= m.reattempted
  }

  function Expired(c: Settings, s: Limiter, time: int): bool {
    if s.bounceAttempts >= c.attempts
    then time - s.lastBounceReattempt >= c.reattempt
    else time - s.lastBounce >= c.interval
  }

  /** What asking the guard does: it starts a new round of attempts. */
  function Asked(c: Settings, s: Limiter, time: int): Limiter {
    if s.bounceAttempts >= c.attempts && Expired(c, s, time)
    then s.(bounceAttempts := 0, now := time)
    else s.(now := time)
  }

  function Bounced(c: Settings, s: Limiter, m: NewLink): Limiter {
    var n := s.bounceAttempts + 1;
    Limiter(n, m.bounced, if n >= c.attempts then m.reattempted else s.lastBounceReattempt,
            s.bounces + [Bounce(m.asked, m.bounced, m.reattempted)], m.reattempted)
  }

  function Received(c: Settings, s: Limiter, m: NewLink): Limiter {
    if m.hasLink then s
    else
      var t := Asked(c, s, m.asked);
      if Expired(c, s, m.asked) && m.mayRepair && !m.faultInjected && !m.quiesced
      then Bounced(c, t, m)
      else t
  }

  // ----- the interface -----

  class Interface {
    const settings: Settings
    var bounceAttempts: int
    var lastBounce: int
    var lastBounceReattempt: int
    ghost var bounces: seq<Bounce>
    ghost var now: int

    ghost function State(): Limiter
      reads this
    {
      Limiter(bounceAttempts, lastBounce, lastBounceReattempt, bounces, now)
    }

    constructor (settings: Settings)
      ensures this.settings == settings && State() == INITIAL
    {
      this.settings := settings;
      bounceAttempts, lastBounce, lastBounceReattempt := 0, 0, 0;
      bounces, now := [], 0;
    }

    method BounceExpired(time: int) returns (expired: bool)
      modifies this
      ensures expired == Expired(settings, old(State()), time)
      ensures State() == Asked(settings, old(State()), time)
    {
      now := time;
      if bounceAttempts >= settings.attempts {
        var delta := time - lastBounceReattempt;
        if delta >= settings.reattempt {
          bounceAttempts := 0;
          expired := true;
        } else {
          expired := false;
        }
      } else {
        var delta := time - lastBounce;
        expired := delta >= settings.interval;
      }
    }

    method BounceLink(m: NewLink)
      modifies this
      ensures State() == if m.quiesced then old(State()) else Bounced(settings, old(State()), m)
    {
      if m.quiesced { return; }
      lastBounce := m.bounced;
      bounceAttempts := bounceAttempts + 1;
      if bounceAttempts >= settings.attempts {
        lastBounceReattempt := m.reattempted;
      }
      bounces, now := bounces + [Bounce(m.asked, m.bounced, m.reattempted)], m.reattempted;
    }

    /** The part of the link message handler that repairs a link. */
    method Receive(m: NewLink)
      modifies this
      ensures State() == Received(settings, old(State()), m)
    {
      var linkRequiresRepair := false;
      if !m.hasLink {
        var expired := BounceExpired(m.asked);
        if expired && m.mayRepair {
          linkRequiresRepair := true;
        }
      }
      if linkRequiresRepair {
        if !m.faultInjected {
          BounceLink(m);
        }
      }
    }
  }

  // ----- every run -----

  ghost predicate Timely(s: Limiter, c: Settings, messages: seq<NewLink>)
    decreases |messages|
  {
    messages == [] || (OnTime(s, messages[0]) && Timely(Received(c, s, messages[0]), c, messages[1..]))
  }

  ghost function Run(c: Settings, s: Limiter, messages: seq<NewLink>): Limiter
    decreases |messages|
  {
    if messages == [] then s else Run(c, Received(c, s, messages[0]), messages[1..])
  }

  /** Time from the end of bounce `k - 1` to the decision for bounce `k`. */
  function Gap(bounces: seq<Bounce>, k: nat): int
    requires 0 < k < |bounces|
  {
    bounces[k].began - bounces[k - 1].marked
  }

  /** How many of the latest bounces follow each other with gaps below `long`. */
  function Streak(bounces: seq<Bounce>, long: int): (n: nat)
    ensures n <= |bounces|
  {
    if bounces == [] then 0
    else if |bounces| == 1 || Gap(bounces, |bounces| - 1) >= long then 1
    else 1 + Streak(bounces[..|bounces| - 1], long)
  }

  ghost predicate Sound(c: Settings, s: Limiter) {
    && 0 <= s.bounceAttempts <= Max(1, c.attempts)
    && (forall k :: 0 <= k < |s.bounces| ==> s.bounces[k].began <= s.bounces[k].marked)
    && (forall k :: 0 < k < |s.bounces| ==> Gap(s.bounces, k) >= Min(c.interval, c.reattempt))
    && (s.bounces != [] ==>
          && s.lastBounce == s.bounces[|s.bounces| - 1].marked <= s.now
          && (s.bounceAttempts >= c.attempts ==> s.lastBounce <= s.lastBounceReattempt))
    && Streak(s.bounces, c.reattempt) <= Max(1, c.attempts)
    && (Streak(s.bounces, c.reattempt) <= s.bounceAttempts || s.now - s.lastBounce >= c.reattempt)
  }

  lemma AskedSound(c: Settings, s: Limiter, time: int)
    requires Sound(c, s) && s.now <= time
    ensures Sound(c, Asked(c, s, time))
    ensures Expired(c, s, time) ==>
      s.bounces == [] || (time - s.lastBounce >= Min(c.interval, c.reattempt)
                          && (Asked(c, s, time).bounceAttempts >= Max(1, c.attempts) ==>
                                time - s.lastBounce >= c.reattempt))
  {
  }

  lemma BouncedSound(c: Settings, s: Limiter, m: NewLink)
    requires Sound(c, s) && s.now <= m.asked <= m.bounced <= m.reattempted
    requires s.bounces != [] ==> m.asked - s.lastBounce >= Min(c.interval, c.reattempt)
    requires s.bounceAttempts < Max(1, c.attempts)
    ensures Sound(c, Bounced(c, s, m))
  {
    var t := Bounced(c, s, m);
    assert t.bounces[..|s.bounces|] == s.bounces;
    forall k | 0 < k < |t.bounces| ensures Gap(t.bounces, k) >= Min(c.interval, c.reattempt) {
      if k < |s.bounces| { assert Gap(t.bounces, k) == Gap(s.bounces, k); }
    }
  }

  lemma ReceivedSound(c: Settings, s: Limiter, m: NewLink)
    requires Sound(c, s) && OnTime(s, m)
    ensures Sound(c, Received(c, s, m))
  {
    AskedSound(c, s, m.asked);
    if !m.hasLink && Expired(c, s, m.asked) && m.mayRepair && !m.faultInjected && !m.quiesced {
      BouncedSound(c, Asked(c, s, m.asked), m);
    }
  }

  lemma {:induction false} RunSound(c: Settings, s: Limiter, messages: seq<NewLink>)
    requires Sound(c, s) && Timely(s, c, messages)
    ensures Sound(c, Run(c, s, messages))
    decreases |messages|
  {
    if messages != [] {
      ReceivedSound(c, s, messages[0]);
      RunSound(c, Received(c, s, messages[0]), messages[1..]);
    }
  }

  /** In every run, two bounces `n` apart in order are at least `n` times the shorter wait apart in
      time, whatever was skipped in between. */
  lemma BouncesApart(c: Settings, messages: seq<NewLink>, i: nat, j: nat)
    requires Timely(INITIAL, c, messages) && 0 <= Min(c.interval, c.reattempt)
    requires i <= j < |Run(c, INITIAL, messages).bounces|
    ensures var bounces := Run(c, INITIAL, messages).bounces;
      bounces[j].began - bounces[i].began >= (j - i) * Min(c.interval, c.reattempt)
  {
    RunSound(c, INITIAL, messages);
    GapsAddUp(c, Run(c, INITIAL, messages), i, j);
  }

  lemma {:induction false} GapsAddUp(c: Settings, s: Limiter, i: nat, j: nat)
    requires Sound(c, s) && i <= j < |s.bounces| && 0 <= Min(c.interval, c.reattempt)
    ensures s.bounces[j].began - s.bounces[i].began >= (j - i) * Min(c.interval, c.reattempt)
    decreases j - i
  {
    if i < j {
      GapsAddUp(c, s, i, j - 1);
      assert Gap(s.bounces, j) >= Min(c.interval, c.reattempt);
      var wait := Min(c.interval, c.reattempt);
      assert (j - i) * wait == (j - 1 - i) * wait + wait;
    }
  }

  /** In every run from the start, a window of `span` seconds holds at most
      span / wait + 1 bounces. */
  lemma {:induction false} WindowHoldsFew(c: Settings, messages: seq<NewLink>, i: nat, j: nat, span: nat)
    requires Timely(INITIAL, c, messages) && 0 < Min(c.interval, c.reattempt)
    requires i <= j < |Run(c, INITIAL, messages).bounces|
    requires Run(c, INITIAL, messages).bounces[j].began - Run(c, INITIAL, messages).bounces[i].began <= span
    ensures j - i + 1 <= span / Min(c.interval, c.reattempt) + 1
  {
    var wait := Min(c.interval, c.reattempt);
    BouncesApart(c, messages, i, j);
    QuotientBound(j - i, wait, span);
  }

  lemma QuotientBound(n: nat, wait: nat, span: nat)
    requires 0 < wait && n * wait <= span
    ensures n <= span / wait
  {
    var q := span / wait;
    assert span < q * wait + wait;
    Multiples(wait, q, n);
  }

  /** A streak that reaches back `n` bounces has only short gaps. */
  lemma {:induction false} ShortGapsStreak(bounces: seq<Bounce>, n: nat, long: int)
    requires 0 < n <= |bounces|
    requires forall k :: |bounces| - n < k < |bounces| ==> Gap(bounces, k) < long
    ensures Streak(bounces, long) >= n
    decreases n
  {
    if n > 1 {
      var front := bounces[..|bounces| - 1];
      forall k | |front| - (n - 1) < k < |front| ensures Gap(front, k) < long {
        assert Gap(front, k) == Gap(bounces, k);
      }
      ShortGapsStreak(front, n - 1, long);
    }
  }

  /** In every run, among any max(1, attempts) + 1 bounces in a row one waited the
      full reattempt time. */
  lemma {:induction false} LongWaitInEveryRow(c: Settings, messages: seq<NewLink>, last: nat)
    requires Timely(INITIAL, c, messages)
    requires Max(1, c.attempts) <= last < |Run(c, INITIAL, messages).bounces|
    ensures exists k :: last - Max(1, c.attempts) < k <= last
              && Gap(Run(c, INITIAL, messages).bounces, k) >= c.reattempt
    decreases |messages|
  {
    var n := |messages| - 1;
    var before := Run(c, INITIAL, messages[..n]);
    RunSnoc(c, INITIAL, messages);
    TimelySnoc(c, INITIAL, messages);
    var s := Run(c, INITIAL, messages);
    assert before.bounces <= s.bounces;
    if last < |before.bounces| {
      LongWaitInEveryRow(c, messages[..n], last);
      var k :| last - Max(1, c.attempts) < k <= last && Gap(before.bounces, k) >= c.reattempt;
      assert Gap(s.bounces, k) >= c.reattempt;
    } else {
      RunSound(c, INITIAL, messages);
      if forall k :: last - Max(1, c.attempts) < k <= last ==> Gap(s.bounces, k) < c.reattempt {
        ShortGapsStreak(s.bounces, Max(1, c.attempts) + 1, c.reattempt);
        assert false;
      }
    }
  }

  lemma {:induction false} RunSnoc(c: Settings, s: Limiter, messages: seq<NewLink>)
    requires messages != []
    ensures Run(c, s, messages) == Received(c, Run(c, s, messages[..|messages| - 1]), messages[|messages| - 1])
    decreases |messages|
  {
    if |messages| > 1 {
      RunSnoc(c, Received(c, s, messages[0]), messages[1..]);
      assert messages[1..][..|messages| - 2] == messages[..|messages| - 1][1..];
    }
  }

  lemma {:induction false} TimelySnoc(c: Settings, s: Limiter, messages: seq<NewLink>)
    requires messages != [] && Timely(s, c, messages)
    ensures Timely(s, c, messages[..|messages| - 1])
    ensures OnTime(Run(c, s, messages[..|messages| - 1]), messages[|messages| - 1])
    decreases |messages|
  {
    if |messages| > 1 {
      TimelySnoc(c, Received(c, s, messages[0]), messages[1..]);
      assert messages[1..][..|messages| - 2] == messages[..|messages| - 1][1..];
    }
  }

  // ----- which messages bounce the link -----

  ghost predicate Counted(c: Settings, s: Limiter) {
    && (if s.bounces == [] then s.lastBounce == s.lastBounceReattempt == 0
        else var last := s.bounces[|s.bounces| - 1];
          s.lastBounce == last.marked <= last.done <= s.now && s.lastBounceReattempt <= last.done)
    && s.lastBounceReattempt <= s.now
    && (0 < c.attempts ==>
          || s.bounceAttempts == |s.bounces| % c.attempts
          || (s.bounceAttempts == c.attempts && s.bounces != [] && |s.bounces| % c.attempts == 0))
  }

  lemma ReceivedCounted(c: Settings, s: Limiter, m: NewLink)
    requires Counted(c, s) && OnTime(s, m)
    ensures Counted(c, Received(c, s, m))
  {
    if 0 < c.attempts { NextRemainder(|s.bounces|, c.attempts); }
  }

  lemma NextRemainder(n: nat, a: nat)
    requires 0 < a
    ensures (n + 1) % a == if n % a + 1 == a then 0 else n % a + 1
  {
    var q, r := n / a, n % a;
    assert n + 1 == q * a + (r + 1);
    if r + 1 == a {
      assert n + 1 == (q + 1) * a;
      Remainder(q + 1, 0, a);
    } else {
      Remainder(q, r + 1, a);
    }
  }

  lemma Remainder(q: nat, r: nat, a: nat)
    requires r < a
    ensures (q * a + r) % a == r
  {
    var n := q * a + r;
    assert n == (n / a) * a + n % a;
    Multiples(a, q, n / a);
    Multiples(a, n / a, q);
  }

  lemma {:induction false} RunCounted(c: Settings, s: Limiter, messages: seq<NewLink>)
    requires Counted(c, s) && Timely(s, c, messages)
    ensures Counted(c, Run(c, s, messages))
    decreases |messages|
  {
    if messages != [] {
      ReceivedCounted(c, s, messages[0]);
      RunCounted(c, Received(c, s, messages[0]), messages[1..]);
    }
  }

  /** A message bounces the link at most once, and only a link that is down, that may be repaired, without an
      injected fault and not quiesced.  It does so when the longer of the two waits has passed since the last
      bounce; and within a round of attempts, exactly when the interval has passed. */
  predicate BouncedOrNot(c: Settings, before: seq<Bounce>, after: seq<Bounce>, m: NewLink) {
    var bounced := before + [Bounce(m.asked, m.bounced, m.reattempted)];
    && (after == before || after == bounced)
    && (after == bounced ==> !m.hasLink && m.mayRepair && !m.faultInjected && !m.quiesced)
    && (!m.hasLink && m.mayRepair && !m.faultInjected && !m.quiesced ==>
          var marked := if before == [] then 0 else before[|before| - 1].marked;
          var done := if before == [] then 0 else before[|before| - 1].done;
          && (m.asked - done >= Max(c.interval, c.reattempt) ==> after == bounced)
          && (0 < c.attempts && (before == [] || |before| % c.attempts != 0) ==>
                (after == bounced <==> m.asked - marked >= c.interval)))
  }

  /** After any run, one more message bounces the link when it should. */
  lemma LinksThatAreDownAreBounced(c: Settings, messages: seq<NewLink>, m: NewLink)
    requires Timely(INITIAL, c, messages + [m])
    ensures BouncedOrNot(c, Run(c, INITIAL, messages).bounces, Run(c, INITIAL, messages + [m]).bounces, m)
  {
    hide Received, Counted;
    var all := messages + [m];
    assert all[..|messages|] == messages;
    RunSnoc(c, INITIAL, all);
    TimelySnoc(c, INITIAL, all);
    RunCounted(c, INITIAL, messages);
    OneMore(c, Run(c, INITIAL, messages), m);
  }

  lemma OneMore(c: Settings, s: Limiter, m: NewLink)
    requires Counted(c, s) && OnTime(s, m)
    ensures BouncedOrNot(c, s.bounces, Received(c, s, m).bounces, m)
  {
    assert |s.bounces + [Bounce(m.asked, m.bounced, m.reattempted)]| == |s.bounces| + 1;
  }
}
