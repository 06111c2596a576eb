/**
 What holds of every run of a session: which native commands it issues on which connection,
 and when a transaction is committed.
 */
module SessionRuns {
  import opened Wrappers
  import opened SessionSpec
  import opened SqlStatements

  // ---------------------------------------------------------------- the native commands

  // What a session does with connections: none, one outside or inside a native transaction,
  // or one whose COMMIT or ROLLBACK has just failed.
  datatype Use = Nothing | Outside(conn: nat) | Inside(conn: nat) | Stuck(conn: nat) | Wrong

  function NextUse(u: Use, e: Event): Use {
    match e
    case Acquired(c) => if u == Nothing then Outside(c) else Wrong
    case Began(c, _, ok) => if u != Outside(c) then Wrong else if ok then Inside(c) else u
    case Worked(c, _) => if u == Outside(c) || u == Inside(c) then u else Wrong
    case Undone(c, ok) => if u != Inside(c) then Wrong else if ok then Outside(c) else Stuck(c)
    case Finished(c, _, ok) => if u != Inside(c) then Wrong else if ok then Outside(c) else Stuck(c)
    case Released(c) => if u == Outside(c) || u == Stuck(c) then Nothing else Wrong
    case Opened(_) => if u.Inside? then u else Wrong
    case Marked(_) => if u.Inside? then u else Wrong
    case Ended(_, _, _, _) => if u.Inside? then u else Wrong
  }

  function UseAfter(log: seq<Event>): Use {
    if log == [] then Nothing else NextUse(UseAfter(log[..|log| - 1]), log[|log| - 1])
  }

  // The connection is inside a native transaction after these events.
  predicate InTransaction(log: seq<Event>, c: nat) {
    if log == [] then false
    else
      match log[|log| - 1]
      case Began(d, _, ok) => (d == c && ok) || InTransaction(log[..|log| - 1], c)
      case Undone(d, ok) => !(d == c && ok) && InTransaction(log[..|log| - 1], c)
      case Finished(d, _, ok) => !(d == c && ok) && InTransaction(log[..|log| - 1], c)
      case _ => InTransaction(log[..|log| - 1], c)
  }

  // A COMMIT or ROLLBACK that threw.
  predicate Failure(e: Event) {
    (e.Finished? || e.Undone?) && !e.ok
  }

  ghost predicate NoFailure(log: seq<Event>) {
    forall e :: e in log ==> !Failure(e)
  }

  ghost predicate Uses(s: Session) {
    match UseAfter(s.log)
    case Nothing => s.connection == None && s.stack == []
    case Outside(c) => s.connection == Some(c) && s.stack == []
    case Inside(c) => s.connection == Some(c)
    case Stuck(c) => s.connection == Some(c) && s.stack == []
    case Wrong => false
  }

  // Every failure is followed at once by the release of the connection, inside its transaction.
  ghost predicate FailuresRelease(log: seq<Event>) {
    && (forall i :: 0 <= i < |log| && Failure(log[i]) ==>
          InTransaction(log[..i + 1], log[i].conn) && (i + 1 < |log| ==> log[i + 1] == Released(log[i].conn)))
    && (log != [] && Failure(log[|log| - 1]) <==> UseAfter(log).Stuck?)
  }

  ghost predicate ReleasedOutside(log: seq<Event>) {
    && (NoFailure(log) ==> forall c: nat :: InTransaction(log, c) ==> UseAfter(log) == Inside(c))
    && (forall i :: 0 <= i < |log| && log[i].Released? && NoFailure(log[..i]) ==> !InTransaction(log[..i], log[i].conn))
  }

  ghost predicate Native(s: Session) {
    && Uses(s) && FailuresRelease(s.log) && ReleasedOutside(s.log)
    && (forall c: nat :: UseAfter(s.log) == Inside(c) || UseAfter(s.log) == Stuck(c) ==> InTransaction(s.log, c))
  }

  // One more event that the protocol allows.
  lemma NextNative(s: Session, e: Event, s': Session)
    requires Native(s) && s'.log == s.log + [e] && NextUse(UseAfter(s.log), e) != Wrong && Uses(s')
    ensures Native(s')
  {
    var log, log' := s.log, s'.log;
    assert log'[..|log|] == log;
    assert UseAfter(log') == NextUse(UseAfter(log), e);
    NextFailures(s, e);
    NextOutside(s, e);
  }

  lemma UseOfNext(log: seq<Event>, e: Event)
    ensures UseAfter(log + [e]) == NextUse(UseAfter(log), e)
  {
    assert (log + [e])[..|log|] == log;
  }

  lemma FailureStaysInside(log: seq<Event>, e: Event)
    requires Failure(e) && InTransaction(log, e.conn)
    ensures InTransaction(log + [e], e.conn)
  {
    assert (log + [e])[..|log|] == log;
  }

  lemma StuckOn(log: seq<Event>, e: Event)
    ensures UseAfter(log + [e]) == NextUse(UseAfter(log), e)
    ensures log != [] && UseAfter(log).Stuck? && Failure(log[|log| - 1]) ==> UseAfter(log) == Stuck(log[|log| - 1].conn)
    ensures Failure(e) && NextUse(UseAfter(log), e) != Wrong && InTransaction(log, e.conn) ==>
              InTransaction(log + [e], e.conn)
  {
    UseOfNext(log, e);
    if log != [] {
      assert UseAfter(log) == NextUse(UseAfter(log[..|log| - 1]), log[|log| - 1]);
    }
    hide UseAfter, InTransaction;
    if Failure(e) && InTransaction(log, e.conn) {
      FailureStaysInside(log, e);
    }
  }

  lemma NextFailures(s: Session, e: Event)
    requires Native(s) && NextUse(UseAfter(s.log), e) != Wrong
    ensures FailuresRelease(s.log + [e])
  {
    var log, log' := s.log, s.log + [e];
    StuckOn(log, e);
    hide UseAfter, InTransaction, ReleasedOutside;
    forall i | 0 <= i < |log'| && Failure(log'[i])
      ensures InTransaction(log'[..i + 1], log'[i].conn) && (i + 1 < |log'| ==> log'[i + 1] == Released(log'[i].conn))
    {
      if i < |log| {
        assert log'[..i + 1] == log[..i + 1];
      } else {
        assert log'[..i + 1] == log';
      }
    }
  }

  lemma NextOutside(s: Session, e: Event)
    requires Native(s) && NextUse(UseAfter(s.log), e) != Wrong
    ensures ReleasedOutside(s.log + [e])
  {
    var log, log' := s.log, s.log + [e];
    assert log'[..|log|] == log;
    assert NoFailure(log') ==> NoFailure(log) && !Failure(e);
    forall i | 0 <= i < |log'| && log'[i].Released? && NoFailure(log'[..i])
      ensures !InTransaction(log'[..i], log'[i].conn)
    {
      if i < |log| {
        assert log'[..i] == log[..i];
      }
    }
  }

  // ---------------------------------------------------------------- nested transactions

  /** Event `m` ends a transaction that was marked successful, or is being yielded, and whose listener did not throw. */
  ghost predicate Clean(log: seq<Event>, m: nat) {
    && m < |log| && log[m].Ended? && !log[m].threw
    && (log[m].yielding || exists k :: 0 <= k < m && log[k] == Marked(log[m].serial))
  }

  ghost predicate EndedWell(log: seq<Event>, serial: nat, before: nat) {
    exists m :: serial < m < before && Clean(log, m) && log[m].serial == serial
  }

  // No outermost transaction is opened between the two events.
  ghost predicate SameSpan(log: seq<Event>, b: nat, i: nat) {
    b < i <= |log| && log[b] == Opened(1) && forall k :: b < k < i ==> log[k] != Opened(1)
  }

  ghost predicate AllEndedWell(log: seq<Event>, b: nat, i: nat) {
    forall k: nat :: b <= k < i <= |log| && log[k].Opened? ==> EndedWell(log, k, i)
  }

  ghost predicate HasSpan(log: seq<Event>, i: nat) {
    exists b: nat :: SameSpan(log, b, i)
  }

  /**
   The outermost transaction, opened by event `b`, is committed exactly if every transaction
   of its span, at every depth, ended well; otherwise it is rolled back.
   */
  ghost predicate CommitRule(log: seq<Event>) {
    && (forall i: nat :: i < |log| && log[i].Finished? ==> HasSpan(log, i))
    && forall b: nat, i: nat :: i < |log| && log[i].Finished? && SameSpan(log, b, i) ==>
          (log[i].commit <==> AllEndedWell(log, b, i))
  }

  ghost predicate IsOpen(stack: seq<Transaction>, serial: nat) {
    exists i :: 0 <= i < |stack| && stack[i].serial == serial
  }

  ghost predicate EndedIn(log: seq<Event>, serial: nat) {
    exists m :: 0 <= m < |log| && log[m].Ended? && log[m].serial == serial
  }

  ghost predicate IsMarked(log: seq<Event>, serial: nat) {
    exists k :: 0 <= k < |log| && log[k] == Marked(serial)
  }

  ghost predicate Serials(log: seq<Event>, stack: seq<Transaction>) {
    && (forall i :: 0 <= i < |stack| ==> stack[i].serial < |log| && log[stack[i].serial] == Opened(|stack| - i))
    && (forall i, j :: 0 <= i < j < |stack| ==> stack[i].serial > stack[j].serial)
    && (forall i :: 0 <= i < |stack| ==> (stack[i].marked <==> IsMarked(log, stack[i].serial)))
  }

  ghost predicate EndedClosed(log: seq<Event>, stack: seq<Transaction>) {
    forall m :: 0 <= m < |log| && log[m].Ended? ==>
      log[m].serial < m && log[log[m].serial].Opened? && !IsOpen(stack, log[m].serial)
  }

  ghost predicate EndedOnce(log: seq<Event>) {
    forall m, n :: 0 <= m < n < |log| && log[m].Ended? && log[n].Ended? ==> log[m].serial != log[n].serial
  }

  ghost predicate OpenOrEnded(log: seq<Event>, stack: seq<Transaction>) {
    forall k: nat :: k < |log| && log[k].Opened? ==> IsOpen(stack, k) || EndedIn(log, k)
  }

  ghost predicate Endings(log: seq<Event>, stack: seq<Transaction>) {
    && (forall k :: 0 <= k < |log| && log[k].Marked? ==> log[k].serial < k)
    && EndedClosed(log, stack) && EndedOnce(log) && OpenOrEnded(log, stack)
  }

  ghost predicate AllClean(log: seq<Event>, b: nat) {
    forall m :: b < m < |log| && log[m].Ended? ==> Clean(log, m)
  }

  // The transactions that ended in the span are those that were opened in it.
  ghost predicate EndingsSplit(log: seq<Event>, b: nat) {
    forall m :: 0 <= m < |log| && log[m].Ended? ==> (b < m <==> b < log[m].serial)
  }

  // Some transaction of the span failed exactly if that was passed on to one that is still open.
  ghost predicate Span(log: seq<Event>, stack: seq<Transaction>) {
    stack != [] ==>
      var b := stack[|stack| - 1].serial;
      && SameSpan(log, b, |log|)
      && EndingsSplit(log, b)
      && ((forall i :: 0 <= i < |stack| ==> !stack[i].childFailed) <==> AllClean(log, b))
  }

  ghost predicate Nested(log: seq<Event>, stack: seq<Transaction>) {
    Serials(log, stack) && Endings(log, stack) && Span(log, stack) && CommitRule(log)
  }

  // Events other than those of transactions, and all but the last of them.
  predicate Foreign(e: Event) {
    !e.Opened? && !e.Marked? && !e.Ended? && !e.Finished?
  }

  lemma CleanGrows(log: seq<Event>, e: Event)
    ensures forall m: nat :: m < |log| ==> (Clean(log + [e], m) <==> Clean(log, m))
    ensures forall k: nat, i: nat :: i <= |log| ==> (EndedWell(log + [e], k, i) <==> EndedWell(log, k, i))
    ensures forall k: nat :: IsMarked(log + [e], k) <==> IsMarked(log, k) || e == Marked(k)
    ensures forall k: nat :: EndedIn(log + [e], k) <==> EndedIn(log, k) || (e.Ended? && e.serial == k)
    ensures forall b: nat, i: nat :: i <= |log| ==> (SameSpan(log + [e], b, i) <==> SameSpan(log, b, i))
    ensures forall b: nat, i: nat :: i <= |log| ==> (AllEndedWell(log + [e], b, i) <==> AllEndedWell(log, b, i))
  {
    var log' := log + [e];
    forall m: nat | m < |log| ensures Clean(log', m) <==> Clean(log, m) {
      if log[m].Ended? && exists k :: 0 <= k < m && log[k] == Marked(log[m].serial) {
        var k :| 0 <= k < m && log[k] == Marked(log[m].serial);
        assert log'[k] == Marked(log[m].serial);
      }
    }
    forall k: nat, i: nat | i <= |log| ensures EndedWell(log', k, i) <==> EndedWell(log, k, i) {
      assert forall m :: k < m < i ==> (Clean(log', m) <==> Clean(log, m)) && log'[m] == log[m];
    }
    forall k: nat ensures IsMarked(log', k) <==> IsMarked(log, k) || e == Marked(k) {
      assert log'[|log|] == e;
      if j :| 0 <= j < |log| && log[j] == Marked(k) {
        assert log'[j] == Marked(k);
      }
    }
    forall k: nat ensures EndedIn(log', k) <==> EndedIn(log, k) || (e.Ended? && e.serial == k) {
      assert log'[|log|] == e;
      if m :| 0 <= m < |log| && log[m].Ended? && log[m].serial == k {
        assert log'[m].Ended? && log'[m].serial == k;
      }
    }
    forall b: nat, i: nat | i <= |log| ensures SameSpan(log', b, i) <==> SameSpan(log, b, i) {
      if SameSpan(log', b, i) {
        forall k | b < k < i ensures log[k] != Opened(1) {
          assert log'[k] != Opened(1);
        }
      }
    }
    forall b: nat, i: nat | i <= |log| ensures AllEndedWell(log', b, i) <==> AllEndedWell(log, b, i) {
      if AllEndedWell(log', b, i) {
        forall k: nat | b <= k < i && log[k].Opened? ensures EndedWell(log, k, i) {
          assert log'[k].Opened?;
        }
      }
    }
  }

  // ---------------------------------------------------------------- one more event

  lemma ForeignNested(log: seq<Event>, stack: seq<Transaction>, e: Event)
    requires Nested(log, stack) && Foreign(e)
    ensures Nested(log + [e], stack)
  {
    CleanGrows(log, e);
    hide Clean, EndedWell, IsMarked, EndedIn, AllEndedWell;
    var log' := log + [e];
    assert Serials(log', stack);
    assert Endings(log', stack);
    assert CommitRule(log');
    SpanGrows(log, stack, e);
  }

  lemma SpanGrows(log: seq<Event>, stack: seq<Transaction>, e: Event)
    requires Serials(log, stack) && Span(log, stack) && e != Opened(1) && !e.Ended?
    ensures Span(log + [e], stack)
  {
    CleanGrows(log, e);
    hide Clean, IsMarked, EndedIn;
    if stack != [] {
      var b := stack[|stack| - 1].serial;
      assert SameSpan(log, b, |log|);
      assert AllClean(log + [e], b) <==> AllClean(log, b) by {
        if AllClean(log + [e], b) {
          forall m | b < m < |log| && log[m].Ended? ensures Clean(log, m) {
            assert (log + [e])[m].Ended?;
          }
        }
      }
    }
  }

  lemma CommitGrows(log: seq<Event>, e: Event)
    requires CommitRule(log) && !e.Finished?
    ensures CommitRule(log + [e])
  {
    CleanGrows(log, e);
    hide Clean, EndedWell, IsMarked, EndedIn, AllEndedWell, SameSpan;
    forall i: nat | i < |log| && log[i].Finished? ensures HasSpan(log + [e], i) {
      var b: nat :| SameSpan(log, b, i);
      assert SameSpan(log + [e], b, i);
    }
  }

  lemma PushSerials(log: seq<Event>, stack: seq<Transaction>, t: Transaction)
    requires Serials(log, stack) && Endings(log, stack) && t.serial == |log| && !t.marked
    ensures Serials(log + [Opened(|stack| + 1)], [t] + stack)
  {
    var e, stack' := Opened(|stack| + 1), [t] + stack;
    var log' := log + [e];
    CleanGrows(log, e);
    assert !IsMarked(log, |log|);
    hide Clean, EndedWell, IsMarked, EndedIn, AllEndedWell, SameSpan, Endings;
    assert stack'[0] == t;
    forall i | 0 < i < |stack'| ensures stack'[i] == stack[i - 1] {}
  }

  lemma PushEndings(log: seq<Event>, stack: seq<Transaction>, t: Transaction)
    requires Endings(log, stack) && t.serial == |log|
    ensures Endings(log + [Opened(|stack| + 1)], [t] + stack)
  {
    var e, stack' := Opened(|stack| + 1), [t] + stack;
    CleanGrows(log, e);
    forall k: nat ensures IsOpen(stack', k) <==> IsOpen(stack, k) || k == |log| {
      assert stack'[0] == t;
      if i :| 0 <= i < |stack| && stack[i].serial == k {
        assert stack'[i + 1].serial == k;
      }
    }
    hide Clean, EndedWell, IsMarked, EndedIn, AllEndedWell, IsOpen, SameSpan;
  }

  lemma FirstSpan(log: seq<Event>, t: Transaction)
    requires Endings(log, []) && t.serial == |log| && !t.childFailed
    ensures Span(log + [Opened(1)], [t])
  {
    assert (log + [Opened(1)])[|log|] == Opened(1);
  }

  lemma NestedSpan(log: seq<Event>, stack: seq<Transaction>, t: Transaction)
    requires stack != [] && Span(log, stack) && !t.childFailed
    ensures Span(log, [t] + stack)
  {
    hide SameSpan, EndingsSplit, AllClean;
    var stack' := [t] + stack;
    assert stack'[|stack'| - 1] == stack[|stack| - 1];
    assert forall i :: 0 < i < |stack'| ==> stack'[i] == stack[i - 1];
    assert forall i :: 0 <= i < |stack| ==> stack[i] == stack'[i + 1];
  }

  lemma PushNested(log: seq<Event>, stack: seq<Transaction>, t: Transaction)
    requires Nested(log, stack) && t.serial == |log| && !t.marked && !t.childFailed
    ensures Nested(log + [Opened(|stack| + 1)], [t] + stack)
  {
    hide Serials, Endings, Span, CommitRule;
    PushSerials(log, stack, t);
    PushEndings(log, stack, t);
    if stack == [] {
      FirstSpan(log, t);
      assert [t] + stack == [t];
    } else {
      SpanGrows(log, stack, Opened(|stack| + 1));
      NestedSpan(log + [Opened(|stack| + 1)], stack, t);
    }
    CommitGrows(log, Opened(|stack| + 1));
  }

  ghost function MarkTop(stack: seq<Transaction>): seq<Transaction>
    requires stack != []
  {
    [stack[0].(marked := true)] + stack[1..]
  }

  lemma MarkSerials(log: seq<Event>, stack: seq<Transaction>)
    requires Serials(log, stack) && stack != []
    ensures Serials(log + [Marked(stack[0].serial)], MarkTop(stack))
  {
    CleanGrows(log, Marked(stack[0].serial));
    hide Clean, EndedWell, IsMarked, EndedIn, AllEndedWell, SameSpan;
  }

  lemma MarkEndings(log: seq<Event>, stack: seq<Transaction>)
    requires Serials(log, stack) && Endings(log, stack) && stack != []
    ensures Endings(log + [Marked(stack[0].serial)], MarkTop(stack))
  {
    CleanGrows(log, Marked(stack[0].serial));
    SameSerials(stack, MarkTop(stack));
    hide Clean, EndedWell, IsMarked, EndedIn, AllEndedWell, IsOpen, SameSpan;
  }

  lemma SameSerials(stack: seq<Transaction>, stack': seq<Transaction>)
    requires |stack'| == |stack| && forall i :: 0 <= i < |stack| ==> stack'[i].serial == stack[i].serial
    ensures forall k: nat :: IsOpen(stack', k) <==> IsOpen(stack, k)
  {
    forall k: nat ensures IsOpen(stack', k) <==> IsOpen(stack, k) {
      if i :| 0 <= i < |stack| && stack[i].serial == k {
        assert stack'[i].serial == k;
      }
    }
  }

  lemma MarkNested(log: seq<Event>, stack: seq<Transaction>)
    requires Nested(log, stack) && stack != []
    ensures Nested(log + [Marked(stack[0].serial)], MarkTop(stack))
  {
    hide Serials, Endings, CommitRule, Span;
    MarkSerials(log, stack);
    MarkEndings(log, stack);
    CommitGrows(log, Marked(stack[0].serial));
    SpanGrows(log, stack, Marked(stack[0].serial));
    MarkSpan(log + [Marked(stack[0].serial)], stack);
  }

  lemma MarkSpan(log: seq<Event>, stack: seq<Transaction>)
    requires Span(log, stack) && stack != []
    ensures Span(log, MarkTop(stack))
  {
    hide SameSpan, AllClean;
    assert forall i :: 0 <= i < |stack| ==>
      stack[i].childFailed == MarkTop(stack)[i].childFailed && stack[i].serial == MarkTop(stack)[i].serial;
  }

  // ---------------------------------------------------------------- the end of a transaction

  // The stack after its innermost transaction has ended, well or not.
  ghost function Popped(stack: seq<Transaction>, ok: bool): seq<Transaction>
    requires stack != []
  {
    var rest := stack[1..];
    if ok || rest == [] then rest else [rest[0].(childFailed := true)] + rest[1..]
  }

  // How the innermost transaction ends.
  ghost predicate EndsOk(t: Transaction, e: Event) {
    e.Ended? && e.serial == t.serial && !e.threw && (t.marked || e.yielding)
  }

  lemma PopParts(log: seq<Event>, stack: seq<Transaction>, e: Event)
    requires Serials(log, stack) && Endings(log, stack) && stack != [] && e.Ended? && e.serial == stack[0].serial
    ensures Clean(log + [e], |log|) <==> EndsOk(stack[0], e)
    ensures forall k: nat :: IsOpen(stack[1..], k) <==> IsOpen(stack, k) && k != stack[0].serial
    ensures !EndedIn(log, stack[0].serial)
  {
    var log' := log + [e];
    assert log'[|log|] == e;
    if IsMarked(log, e.serial) {
      var k :| 0 <= k < |log| && log[k] == Marked(e.serial);
      assert log'[k] == Marked(e.serial);
    }
    if k :| 0 <= k < |log| && log'[k] == Marked(e.serial) {
      assert log[k] == Marked(e.serial);
    }
    forall k: nat ensures IsOpen(stack[1..], k) <==> IsOpen(stack, k) && k != stack[0].serial {
      if i :| 0 <= i < |stack| && stack[i].serial == k && k != stack[0].serial {
        assert stack[1..][i - 1].serial == k;
      }
    }
    assert IsOpen(stack, stack[0].serial);
  }

  lemma NeverEnded(log: seq<Event>, serial: nat)
    requires !EndedIn(log, serial)
    ensures forall m :: 0 <= m < |log| && log[m].Ended? ==> log[m].serial != serial
  {
  }

  lemma PopEndedClosed(log: seq<Event>, stack: seq<Transaction>, e: Event, ok: bool)
    requires Serials(log, stack) && Endings(log, stack) && stack != [] && e.Ended? && e.serial == stack[0].serial
    ensures EndedClosed(log + [e], Popped(stack, ok))
  {
    PopParts(log, stack, e);
    SameSerials(stack[1..], Popped(stack, ok));
    assert log[e.serial].Opened?;
    hide IsOpen, EndedOnce, OpenOrEnded, EndedIn, Popped, Clean, Serials;
  }

  lemma PopEndedOnce(log: seq<Event>, e: Event)
    requires EndedOnce(log) && e.Ended? && !EndedIn(log, e.serial)
    ensures EndedOnce(log + [e])
  {
    NeverEnded(log, e.serial);
    hide EndedIn;
  }

  lemma PopOpenOrEnded(log: seq<Event>, stack: seq<Transaction>, e: Event, ok: bool)
    requires Serials(log, stack) && Endings(log, stack) && stack != [] && e.Ended? && e.serial == stack[0].serial
    ensures OpenOrEnded(log + [e], Popped(stack, ok))
  {
    PopParts(log, stack, e);
    CleanGrows(log, e);
    SameSerials(stack[1..], Popped(stack, ok));
    hide Clean, EndedWell, IsMarked, IsOpen, EndedIn, SameSpan, AllEndedWell, Serials, Popped, EndedClosed, EndedOnce;
  }

  lemma PopEndings(log: seq<Event>, stack: seq<Transaction>, e: Event, ok: bool)
    requires Serials(log, stack) && Endings(log, stack) && stack != [] && e.Ended? && e.serial == stack[0].serial
    ensures Endings(log + [e], Popped(stack, ok))
  {
    PopParts(log, stack, e);
    hide Serials, EndedClosed, EndedOnce, OpenOrEnded, IsOpen, EndedIn, Clean, Popped;
    PopEndedClosed(log, stack, e, ok);
    PopEndedOnce(log, e);
    PopOpenOrEnded(log, stack, e, ok);
  }

  lemma PopSerials(log: seq<Event>, stack: seq<Transaction>, e: Event, ok: bool)
    requires Serials(log, stack) && stack != [] && e.Ended?
    ensures Serials(log + [e], Popped(stack, ok))
  {
    CleanGrows(log, e);
    var stack' := Popped(stack, ok);
    forall i | 0 <= i < |stack'|
      ensures stack'[i].serial == stack[i + 1].serial && stack'[i].marked == stack[i + 1].marked {}
    hide Clean, EndedWell, IsMarked, EndedIn, AllEndedWell, SameSpan, Popped;
    assert |stack'| == |stack| - 1;
    forall i | 0 <= i < |stack'| ensures stack'[i].serial < |log| && log[stack'[i].serial] == Opened(|stack'| - i) {
      assert log[stack[i + 1].serial] == Opened(|stack| - (i + 1));
    }
  }

  // The innermost transaction of at least two ends: its failure is passed on to its parent.
  lemma PopSpan(log: seq<Event>, stack: seq<Transaction>, e: Event)
    requires Serials(log, stack) && Endings(log, stack) && Span(log, stack)
    requires |stack| > 1 && e.Ended? && e.serial == stack[0].serial
    ensures Span(log + [e], Popped(stack, EndsOk(stack[0], e) && !stack[0].childFailed))
  {
    hide EndsOk, AllClean, SameSpan, Serials, Endings, EndingsSplit;
    PopBase(log, stack, e);
    PopClean(log, stack, e);
    PopFlags(stack, EndsOk(stack[0], e) && !stack[0].childFailed);
    assert Popped(stack, EndsOk(stack[0], e) && !stack[0].childFailed)[|stack| - 2].serial == stack[|stack| - 1].serial;
    hide Popped;
  }

  lemma PopBase(log: seq<Event>, stack: seq<Transaction>, e: Event)
    requires Serials(log, stack) && Span(log, stack) && |stack| > 1 && e.Ended? && e.serial == stack[0].serial
    ensures var b := stack[|stack| - 1].serial;
            b < |log| && SameSpan(log + [e], b, |log + [e]|) && EndingsSplit(log + [e], b)
  {
    hide AllClean;
    var b := stack[|stack| - 1].serial;
    assert b < e.serial;
    CleanGrows(log, e);
    hide Clean, EndedWell, IsMarked, EndedIn, AllEndedWell;
  }

  lemma PopFlags(stack: seq<Transaction>, ok: bool)
    requires |stack| > 1
    ensures (forall i :: 0 <= i < |Popped(stack, ok)| ==> !Popped(stack, ok)[i].childFailed) <==>
              ok && forall i :: 1 <= i < |stack| ==> !stack[i].childFailed
  {
    var stack' := Popped(stack, ok);
    forall i | 1 < i < |stack| ensures stack[i] == stack'[i - 1] {}
    assert stack'[0].childFailed <==> stack[1].childFailed || !ok;
  }

  lemma PopClean(log: seq<Event>, stack: seq<Transaction>, e: Event)
    requires Serials(log, stack) && Endings(log, stack) && stack != [] && e.Ended? && e.serial == stack[0].serial
    ensures forall b: nat :: b < |log| ==> (AllClean(log + [e], b) <==> AllClean(log, b) && EndsOk(stack[0], e))
  {
    PopParts(log, stack, e);
    CleanGrows(log, e);
    var log' := log + [e];
    assert log'[|log|] == e;
    hide Clean, EndedWell, IsMarked, EndedIn, AllEndedWell, SameSpan, IsOpen, Endings, Serials, EndsOk;
    forall b: nat | b < |log| ensures AllClean(log', b) <==> AllClean(log, b) && EndsOk(stack[0], e) {
      if AllClean(log', b) {
        assert Clean(log', |log|);
        forall m | b < m < |log| && log[m].Ended? ensures Clean(log, m) {
          assert log'[m].Ended?;
        }
      }
    }
  }

  lemma PopNested(log: seq<Event>, stack: seq<Transaction>, e: Event)
    requires Nested(log, stack) && |stack| > 1 && e.Ended? && e.serial == stack[0].serial
    ensures Nested(log + [e], Popped(stack, EndsOk(stack[0], e) && !stack[0].childFailed))
  {
    hide EndsOk;
    var ok := EndsOk(stack[0], e) && !stack[0].childFailed;
    PopSpan(log, stack, e);
    hide Serials, Endings, Span, CommitRule, Popped;
    PopSerials(log, stack, e, ok);
    PopEndings(log, stack, e, ok);
    CommitGrows(log, e);
  }

  // With every transaction of the span ended, to have ended well is to have no unclean ending.
  lemma EndedWellIffClean(log: seq<Event>, b: nat)
    requires Endings(log, []) && b < |log|
    requires forall m :: b < m < |log| && log[m].Ended? ==> b <= log[m].serial
    ensures AllEndedWell(log, b, |log|) <==> AllClean(log, b)
  {
    if AllClean(log, b) {
      forall k: nat | b <= k < |log| && log[k].Opened? ensures EndedWell(log, k, |log|) {
        assert EndedIn(log, k);
        var m :| 0 <= m < |log| && log[m].Ended? && log[m].serial == k;
        assert Clean(log, m);
      }
    }
    if AllEndedWell(log, b, |log|) {
      forall m | b < m < |log| && log[m].Ended? ensures Clean(log, m) {
        assert EndedWell(log, log[m].serial, |log|);
        var n :| log[m].serial < n < |log| && Clean(log, n) && log[n].serial == log[m].serial;
        assert m == n;
      }
    }
  }

  lemma SpanStartsOnce(log: seq<Event>, a: nat, b: nat, i: nat)
    requires SameSpan(log, a, i) && SameSpan(log, b, i)
    ensures a == b
  {
  }

  lemma LastSpan(log: seq<Event>, t: Transaction, e: Event)
    requires Serials(log, [t]) && Endings(log, [t]) && Span(log, [t]) && e.Ended? && e.serial == t.serial
    ensures t.serial < |log| && SameSpan(log + [e], t.serial, |log| + 1)
    ensures AllClean(log, t.serial) <==> !t.childFailed
    ensures forall m :: t.serial < m < |log| + 1 && (log + [e])[m].Ended? ==> t.serial <= (log + [e])[m].serial
  {
    CleanGrows(log, e);
    assert [t][0] == t;
    hide Clean, AllClean, EndedWell, AllEndedWell, IsMarked, EndedIn, Endings, Serials;
    assert SameSpan(log, t.serial, |log|);
    assert log[t.serial] == Opened(1);
  }

  lemma LastPop(log: seq<Event>, t: Transaction, e: Event)
    requires Nested(log, [t]) && e.Ended? && e.serial == t.serial
    ensures Endings(log + [e], []) && CommitRule(log + [e]) && SameSpan(log + [e], t.serial, |log| + 1)
    ensures AllEndedWell(log + [e], t.serial, |log| + 1) <==> EndsOk(t, e) && !t.childFailed
  {
    hide Serials, Endings, Span, CommitRule, AllClean, AllEndedWell, SameSpan, EndsOk;
    assert [t][1..] == [] && Popped([t], true) == [];
    LastSpan(log, t, e);
    PopClean(log, [t], e);
    PopEndings(log, [t], e, true);
    CommitGrows(log, e);
    EndedWellIffClean(log + [e], t.serial);
  }

  lemma FinishedRule(log: seq<Event>, b: nat, f: Event)
    requires CommitRule(log) && SameSpan(log, b, |log|) && f.Finished? && (f.commit <==> AllEndedWell(log, b, |log|))
    ensures CommitRule(log + [f])
  {
    var log' := log + [f];
    CleanGrows(log, f);
    assert SameSpan(log', b, |log|);
    forall i: nat | i < |log| && log[i].Finished? ensures HasSpan(log', i) {
      var a: nat :| SameSpan(log, a, i);
      assert SameSpan(log', a, i);
    }
    hide Clean, EndedWell, IsMarked, EndedIn, AllEndedWell, SameSpan;
    forall a: nat, i: nat | i < |log'| && log'[i].Finished? && SameSpan(log', a, i)
      ensures log'[i].commit <==> AllEndedWell(log', a, i)
    {
      if i == |log| {
        SpanStartsOnce(log, a, b, i);
      }
    }
  }

  lemma FinishNested(log: seq<Event>, t: Transaction, e: Event, f: Event)
    requires Nested(log, [t]) && e.Ended? && e.serial == t.serial
    requires f.Finished? && (f.commit <==> EndsOk(t, e) && !t.childFailed)
    ensures Nested(log + [e] + [f], [])
  {
    LastPop(log, t, e);
    hide CommitRule, SameSpan, AllEndedWell, EndsOk;
    FinishedRule(log + [e], t.serial, f);
    StillEnded(log + [e], f);
  }

  lemma StillEnded(log: seq<Event>, f: Event)
    requires Endings(log, []) && f.Finished?
    ensures Endings(log + [f], []) && Serials(log + [f], []) && Span(log + [f], [])
  {
    CleanGrows(log, f);
    hide Clean, EndedWell, AllEndedWell, SameSpan, IsMarked, EndedIn;
  }

  // ---------------------------------------------------------------- the operations

  ghost predicate Kept(s: Session) {
    Native(s) && Nested(s.log, s.stack)
  }

  ghost predicate Inv(s: Session) {
    Steady(s) && Kept(s)
  }

  lemma ForeignKept(s: Session, e: Event, s': Session)
    requires Kept(s) && Foreign(e) && s'.log == s.log + [e] && s'.stack == s.stack
    requires NextUse(UseAfter(s.log), e) != Wrong && Uses(s')
    ensures Kept(s')
  {
    hide Native, Nested;
    NextNative(s, e, s');
    ForeignNested(s.log, s.stack, e);
  }

  lemma AcquireKept(s: Session, flags: int, acquired: Option<nat>)
    requires Kept(s)
    ensures var (s', got) := Acquire(s, flags, acquired);
            && Kept(s') && s'.stack == s.stack
            && (got && s.connection.None? ==> s'.connection.Some? && UseAfter(s'.log) == Outside(s'.connection.value))
            && (s.connection.Some? ==> s'.log == s.log && s'.connection == s.connection)
  {
    hide Nested, Native;
    UsesOf(s);
    if s.connection.None? && acquired.Some? {
      var s' := Acquire(s, flags, acquired).0;
      StuckOn(s.log, Acquired(acquired.value));
      ForeignKept(s, Acquired(acquired.value), s');
    } else {
      SameKept(s, Acquire(s, flags, acquired).0);
    }
  }

  lemma UsesOf(s: Session)
    requires Native(s)
    ensures Uses(s)
  {
  }

  lemma LoggedKept(s: Session, e: Event)
    requires Kept(s) && Foreign(e) && !e.Acquired? && !e.Released?
    requires NextUse(UseAfter(s.log), e) != Wrong && (s.stack != [] ==> NextUse(UseAfter(s.log), e).Inside?)
    ensures Kept(Logged(s, e)) && UseAfter(Logged(s, e).log) == NextUse(UseAfter(s.log), e)
  {
    hide Nested, Native;
    UsesOf(s);
    StuckOn(s.log, e);
    ForeignKept(s, e, Logged(s, e));
  }

  lemma ReleaseKept(s: Session)
    requires Kept(s) && s.connection.Some? && s.useCount > 0
    requires s.useCount == 1 ==> UseAfter(s.log).Outside? || UseAfter(s.log).Stuck?
    ensures Kept(Release(s))
  {
    hide Nested, Native;
    UsesOf(s);
    if s.useCount == 1 {
      StuckOn(s.log, Released(s.connection.value));
      ForeignKept(s, Released(s.connection.value), Release(s));
    } else {
      SameKept(s, Release(s));
    }
  }

  lemma SameKept(s: Session, s': Session)
    requires Kept(s) && s'.log == s.log && s'.stack == s.stack && s'.connection == s.connection
    ensures Kept(s')
  {
  }

  lemma PushKept(s: Session, mode: int, listener: Option<nat>)
    requires Kept(s) && UseAfter(s.log).Inside?
    ensures Kept(Push(s, mode, listener))
  {
    hide Nested, Native;
    UsesOf(s);
    var s' := Push(s, mode, listener);
    StuckOn(s.log, Opened(|s.stack| + 1));
    PushNested(s.log, s.stack, s'.stack[0]);
    NextNative(s, Opened(|s.stack| + 1), s');
  }

  lemma BeginOutermostKept(s: Session, mode: int, listener: Option<nat>, env: BeginEnv)
    requires Kept(s) && s.stack == [] && s.useCount == 1 && s.connection.Some? &&
             UseAfter(s.log) == Outside(s.connection.value)
    ensures Kept(BeginOutermost(s, mode, listener, env).0)
  {
    hide Kept, UseAfter;
    var c := s.connection.value;
    var s1 := Logged(s, Began(c, BeginKind(mode), env.beginOk));
    LoggedKept(s, Began(c, BeginKind(mode), env.beginOk));
    if !env.beginOk {
      ReleaseKept(s1);
    } else if listener.Some? && env.onBeginThrows {
      LoggedKept(s1, Undone(c, env.undoOk));
      ReleaseKept(Logged(s1, Undone(c, env.undoOk)));
    } else {
      PushKept(s1, mode, listener);
    }
  }

  lemma InsideDuring(s: Session)
    requires Kept(s) && s.stack != []
    ensures s.connection.Some? && UseAfter(s.log) == Inside(s.connection.value)
  {
  }

  lemma BeginKept(s: Session, mode: int, listener: Option<nat>, flags: int, env: BeginEnv)
    requires Inv(s)
    ensures Inv(BeginUnchecked(s, mode, listener, flags, env).0)
  {
    hide Kept, UseAfter;
    BeginSteady(s, mode, listener, flags, env);
    if !env.canceled {
      if s.stack != [] {
        InsideDuring(s);
        PushKept(s, mode, listener);
      } else {
        AcquireKept(s, flags, env.acquired);
        var (s1, got) := Acquire(s, flags, env.acquired);
        if got {
          BeginOutermostKept(s1, mode, listener, env);
        }
      }
    }
  }

  lemma MarkKept(s: Session)
    requires Inv(s)
    ensures Inv(SetSuccessful(s).0)
  {
    hide Nested, Native;
    if s.stack != [] && !s.stack[0].marked {
      InsideDuring(s);
      StuckOn(s.log, Marked(s.stack[0].serial));
      MarkNested(s.log, s.stack);
      NextNative(s, Marked(s.stack[0].serial), SetSuccessful(s).0);
    }
  }

  // The event of the end of the innermost transaction.
  function EndOf(s: Session, env: EndEnv, yielding: bool): Event
    requires s.stack != []
  {
    var top := s.stack[0];
    Ended(top.serial, yielding, if top.listener.Some? then Some((top.marked || yielding) && !top.childFailed) else None,
          top.listener.Some? && env.listenerThrows)
  }

  lemma InnerEndKept(s: Session, env: EndEnv, yielding: bool)
    requires Inv(s) && |s.stack| > 1 && !env.canceled
    ensures Inv(EndUnchecked(s, env, yielding).0)
  {
    hide Nested, Native, UseAfter;
    var e := EndOf(s, env, yielding);
    EndSteady(s, env, yielding);
    InsideDuring(s);
    StuckOn(s.log, e);
    PopNested(s.log, s.stack, e);
    NextNative(s, e, EndUnchecked(s, env, yielding).0);
  }

  function FinishOf(s: Session, env: EndEnv, yielding: bool): Event
    requires s.stack != [] && s.connection.Some?
  {
    var top, e := s.stack[0], EndOf(s, env, yielding);
    Finished(s.connection.value, (top.marked || yielding) && !top.childFailed && !e.threw, env.nativeOk)
  }

  lemma OuterEnd(s: Session, env: EndEnv, yielding: bool)
    requires |s.stack| == 1 && s.connection.Some? && s.useCount > 0 && !env.canceled
    ensures var e, f := EndOf(s, env, yielding), FinishOf(s, env, yielding);
            EndUnchecked(s, env, yielding).0 == Release(Logged(Logged(s.(stack := []), e), f))
  {
    assert s.stack[1..] == [];
  }

  // The outermost transaction ended, and COMMIT or ROLLBACK was issued.
  lemma OuterEndKept(s: Session, env: EndEnv, yielding: bool)
    requires Inv(s) && |s.stack| == 1 && !env.canceled
    ensures Inv(EndUnchecked(s, env, yielding).0)
  {
    hide Nested, Native, UseAfter;
    InsideDuring(s);
    OuterEnd(s, env, yielding);
    EndSteady(s, env, yielding);
    hide EndUnchecked, Release;
    var e, f := EndOf(s, env, yielding), FinishOf(s, env, yielding);
    var s1 := Logged(s.(stack := []), e);
    assert s.stack == [s.stack[0]];
    StuckOn(s.log, e);
    FinishNested(s.log, s.stack[0], e, f);
    NextNative(s, e, s1);
    StuckOn(s1.log, f);
    NextNative(s1, f, Logged(s1, f));
    ReleaseKept(Logged(s1, f));
  }

  lemma EndKept(s: Session, env: EndEnv, yielding: bool)
    requires Inv(s) && s.stack != []
    ensures Inv(EndUnchecked(s, env, yielding).0)
  {
    hide Inv, EndUnchecked;
    if env.canceled {
      CanceledEnd(s, env, yielding);
    } else if |s.stack| > 1 {
      InnerEndKept(s, env, yielding);
    } else {
      OuterEndKept(s, env, yielding);
    }
  }

  lemma CanceledEnd(s: Session, env: EndEnv, yielding: bool)
    requires Inv(s) && s.stack != [] && env.canceled
    ensures EndUnchecked(s, env, yielding) == (s, Canceled)
  {
  }

  lemma ExecuteKept(s: Session, flags: int, acquired: Option<nat>, ok: bool)
    requires Inv(s)
    ensures Inv(ExecuteOrdinary(s, flags, acquired, ok).0)
  {
    hide Kept, UseAfter;
    var (s1, got) := Acquire(s, flags, acquired);
    AcquireKept(s, flags, acquired);
    if got {
      var c := s1.connection.value;
      if s.stack != [] {
        InsideDuring(s);
      }
      LoggedKept(s1, Worked(c, ok));
      ReleaseKept(Logged(s1, Worked(c, ok)));
    }
  }

  lemma StepKeeps(s: Session, op: Op)
    requires Inv(s)
    ensures Inv(Step(s, op).0)
  {
    hide Kept, SqlStatementType, BeginUnchecked, EndUnchecked, ExecuteOrdinary;
    match op
    case BeginTransaction(mode, listener, flags, begin) => BeginKept(s, mode, listener, flags, begin);
    case SetTransactionSuccessful => MarkKept(s);
    case EndTransaction(end) =>
      if s.stack != [] {
        EndKept(s, end, false);
      }
    case YieldTransaction(_, _, _, end, begin) =>
      if s.stack != [] {
        EndKept(s, end, true);
        BeginKept(EndUnchecked(s, end, true).0, s.stack[0].mode, s.stack[0].listener, s.flags, begin);
      }
    case Execute(_, flags, _, acquired, ok, begin, end) =>
      BeginKept(s, 2, None, flags, begin);
      ExecuteKept(s, flags, acquired, ok);
      MarkKept(s);
      if s.stack != [] {
        EndKept(s, end, false);
        EndKept(SetSuccessful(s).0, end, false);
      }
  }

  lemma {:induction false} RunKeeps(s: Session, ops: seq<Op>)
    requires Inv(s)
    ensures Inv(Run(s, ops))
    decreases |ops|
  {
    hide Kept, Step;
    if ops != [] {
      StepKeeps(s, ops[0]);
      RunKeeps(Step(s, ops[0]).0, ops[1..]);
    }
  }

  lemma NewSessionInv()
    ensures Inv(NEW_SESSION)
  {
  }

  // ---------------------------------------------------------------- the theorems

  /**
   In every run the native commands follow the protocol of `NextUse`: BEGIN, work, and one
   COMMIT or ROLLBACK, all on the connection acquired before and released after; and after every
   operation the session is inside a native transaction exactly if it has a transaction.
   */
  lemma ProtocolFollowed(ops: seq<Op>)
    ensures var s := Run(NEW_SESSION, ops);
            && Steady(s)
            && UseAfter(s.log) == if s.stack == [] then Nothing else Inside(s.connection.value)
  {
    NewSessionInv();
    RunKeeps(NEW_SESSION, ops);
    var s := Run(NEW_SESSION, ops);
    if s.stack != [] {
      InsideDuring(s);
    }
  }

  /**
   In every run, whatever the nesting: an outermost transaction is committed if every
   transaction of its span was marked successful, or yielded, and no listener threw at its end;
   otherwise it is rolled back.
   */
  lemma CommittedExactly(ops: seq<Op>, i: nat)
    requires i < |Run(NEW_SESSION, ops).log| && Run(NEW_SESSION, ops).log[i].Finished?
    ensures var log := Run(NEW_SESSION, ops).log;
            exists b: nat :: SameSpan(log, b, i) && (log[i].commit <==> AllEndedWell(log, b, i))
  {
    NewSessionInv();
    RunKeeps(NEW_SESSION, ops);
    var log := Run(NEW_SESSION, ops).log;
    assert HasSpan(log, i);
    var b: nat :| SameSpan(log, b, i);
  }

  ghost predicate ReleasesInside(log: seq<Event>) {
    exists i :: 0 <= i < |log| && log[i].Released? && InTransaction(log[..i], log[i].conn)
  }

  lemma FailureReleases(log: seq<Event>)
    requires FailuresRelease(log) && !UseAfter(log).Stuck? && !NoFailure(log)
    ensures ReleasesInside(log)
  {
    hide InTransaction, UseAfter;
    var i :| 0 <= i < |log| && Failure(log[i]);
    assert log[i + 1].Released? && InTransaction(log[..i + 1], log[i + 1].conn);
  }

  lemma LogParts(s: Session)
    requires Native(s)
    ensures FailuresRelease(s.log) && ReleasedOutside(s.log)
  {
  }

  lemma PrefixWithoutFailure(log: seq<Event>, i: nat)
    requires NoFailure(log) && i <= |log|
    ensures NoFailure(log[..i])
  {
    assert forall e :: e in log[..i] ==> e in log;
  }

  lemma NoFailureNoRelease(log: seq<Event>)
    requires ReleasedOutside(log) && NoFailure(log)
    ensures !ReleasesInside(log)
  {
    hide InTransaction, UseAfter, NoFailure;
    forall i | 0 <= i < |log| && log[i].Released? ensures !InTransaction(log[..i], log[i].conn) {
      PrefixWithoutFailure(log, i);
    }
  }

  /** A connection goes back to the pool inside a native transaction exactly if some COMMIT or ROLLBACK threw. */
  lemma ReleasedInsideExactly(ops: seq<Op>)
    ensures var log := Run(NEW_SESSION, ops).log;
            ReleasesInside(log) <==> !NoFailure(log)
  {
    hide ReleasesInside, NoFailure, UseAfter, Native, Nested, FailuresRelease, ReleasedOutside;
    ProtocolFollowed(ops);
    NewSessionInv();
    RunKeeps(NEW_SESSION, ops);
    LogParts(Run(NEW_SESSION, ops));
    var log := Run(NEW_SESSION, ops).log;
    if NoFailure(log) {
      NoFailureNoRelease(log);
    } else {
      FailureReleases(log);
    }
  }

  // A session begins a transaction on a connection and ends it, and the ROLLBACK throws.
  function ThrowingEnd(c: nat): seq<Op> {
    [BeginTransaction(0, None, 0, BeginEnv(false, Some(c), true, false, true)),
      EndTransaction(EndEnv(false, false, false))]
  }

  function ThrowingEndLog(c: nat): seq<Event> {
    [Acquired(c), Began(c, DEFERRED, true), Opened(1), Ended(2, false, None, false), Finished(c, false, false),
      Released(c)]
  }

  /** The connection then goes back to the pool while it is still inside the native transaction. */
  lemma ThrowingEndReleasesInside(c: nat)
    ensures var log := Run(NEW_SESSION, ThrowingEnd(c)).log;
            log == ThrowingEndLog(c) && InTransaction(log[..5], c) && ReleasesInside(log)
  {
    var ops, log := ThrowingEnd(c), ThrowingEndLog(c);
    var s1 := Step(NEW_SESSION, ops[0]).0;
    assert s1 == Session(Some(c), 0, 1, [Transaction(2, 0, None, false, false)], log[..3]) by {
      assert s1.log == log[..3];
    }
    var ended := EndUnchecked(s1, EndEnv(false, false, false), false).0;
    assert Step(s1, ops[1]).0 == ended;
    assert ended.log == log[..3] + [log[3]] + [log[4]] + [log[5]];
    assert ended.log == log;
    assert Run(s1, ops[1..]) == Run(ended, []) by {
      assert ops[1..][0] == ops[1] && ops[1..][1..] == [];
    }
    assert Run(NEW_SESSION, ops).log == log;
    assert InTransaction(log[..5], c) by {
      assert log[..5][..4] == log[..4] && log[..4][..3] == log[..3] && log[..3][..2] == log[..2];
      assert InTransaction(log[..2], c);
    }
    assert log[5].Released?;
  }

  /**
   A begin that fails, because BEGIN or `onBegin` threw, leaves the transactions, the connection
   and the use count as they were, and the connection outside a native transaction unless the
   ROLLBACK that was to undo BEGIN threw as well.
   */
  lemma FailedBegin(s: Session, mode: int, listener: Option<nat>, flags: int, env: BeginEnv)
    requires Inv(s) && Begin(s, mode, listener, flags, env).1 != Done(true)
    ensures var s' := Begin(s, mode, listener, flags, env).0;
            && s'.stack == s.stack && s'.connection == s.connection && s'.useCount == s.useCount
            && (env.undoOk && (env.acquired.Some? ==> !InTransaction(s.log, env.acquired.value)) ==>
                  forall c: nat :: InTransaction(s'.log, c) <==> InTransaction(s.log, c))
  {
    if s.stack == [] && !env.canceled && env.acquired.Some? {
      var c := env.acquired.value;
      var log := s.log;
      Appended(log, Acquired(c));
      Appended(log + [Acquired(c)], Began(c, BeginKind(mode), env.beginOk));
      var log' := log + [Acquired(c)] + [Began(c, BeginKind(mode), env.beginOk)];
      Appended(log', Released(c));
      Appended(log', Undone(c, env.undoOk));
      Appended(log' + [Undone(c, env.undoOk)], Released(c));
      hide InTransaction;
    }
  }

  lemma Appended(log: seq<Event>, e: Event)
    ensures forall c: nat :: InTransaction(log + [e], c) <==>
              match e
              case Began(d, _, ok) => (d == c && ok) || InTransaction(log, c)
              case Undone(d, ok) => !(d == c && ok) && InTransaction(log, c)
              case Finished(d, _, ok) => !(d == c && ok) && InTransaction(log, c)
              case _ => InTransaction(log, c)
  {
    assert (log + [e])[..|log|] == log;
  }

  // The end of the only transaction, by a yield.
  lemma EndYielding(s: Session, end: EndEnv)
    requires Inv(s) && |s.stack| == 1 && !s.stack[0].childFailed && !end.canceled
    ensures var (s', r) := EndUnchecked(s, end, true);
            && s'.stack == [] && s'.connection == None && s'.flags == s.flags && |s'.log| > |s.log| + 1
            && s'.log[|s.log| + 1] ==
                 Finished(s.connection.value, !(s.stack[0].listener.Some? && end.listenerThrows), end.nativeOk)
            && (r == Done(true) || r == Failed)
  {
    hide Kept;
  }

  // A transaction is begun from nothing.
  lemma BeginFromNothing(s: Session, mode: int, listener: Option<nat>, flags: int, env: BeginEnv)
    requires s.stack == [] && s.connection == None && s.useCount == 0
    ensures var (s', r) := BeginUnchecked(s, mode, listener, flags, env);
            && |s.log| <= |s'.log| && s'.log[..|s.log|] == s.log
            && (r == Done(true) <==> s'.stack != [])
            && (r == Done(true) ==>
                  |s'.stack| == 1 && s'.stack[0].mode == mode && s'.stack[0].listener == listener && s'.flags == flags)
  {
  }

  /**
   A yield ends the transaction and begins another one only if it is the outermost, not yet
   marked, and no child of it failed; it then commits it unless its listener throws. If it
   throws after that, the session is left without a transaction.
   */
  lemma YieldExactly(s: Session, throwIfUnsafe: bool, canceled: bool, wanted: bool, end: EndEnv, begin: BeginEnv)
    requires Inv(s)
    ensures var (s', r) := Step(s, YieldTransaction(throwIfUnsafe, canceled, wanted, end, begin));
            var swaps := |s.stack| == 1 && !s.stack[0].marked && !s.stack[0].childFailed && !canceled && wanted &&
              !end.canceled;
            && (!swaps ==>
                  && s' == s
                  && r == (if s.stack == [] || s.stack[0].marked || |s.stack| > 1 then
                             if throwIfUnsafe then IllegalState else Done(false)
                           else if s.stack[0].childFailed then Done(false)
                           else if !canceled && !wanted then Done(false) else Canceled))
            && (swaps ==>
                  && |s'.log| > |s.log| + 1
                  && s'.log[|s.log| + 1] ==
                       Finished(s.connection.value, !(s.stack[0].listener.Some? && end.listenerThrows), end.nativeOk)
                  && (r == Done(true) <==> s'.stack != [])
                  && (r == Done(true) ==>
                        |s'.stack| == 1 && s'.stack[0].mode == s.stack[0].mode &&
                          s'.stack[0].listener == s.stack[0].listener
                                          && s'.flags == s.flags))
  {
    hide Kept, Begin, SetSuccessful, End, ExecuteSql, EndUnchecked, BeginUnchecked;
    if |s.stack| == 1 && !s.stack[0].childFailed {
      if end.canceled {
        CanceledEnd(s, end, true);
      } else {
        var s1 := EndUnchecked(s, end, true).0;
        EndYielding(s, end);
        EndSteady(s, end, true);
        BeginFromNothing(s1, s.stack[0].mode, s.stack[0].listener, s.flags, begin);
      }
    }
  }
}
