// Nonce allocation over failing nodes: Nonces of market-maker-service/internal/execution/nonce.go.
// SignAndSend runs under its mutex, so one call is one step, whichever executor makes it. The
// chain is an object whose nodes behave as an environment script says.
module Nonces {
  import opened Prelude

  // One broadcast: whether the node took the transaction, and its error message, if any. The two
  // are independent: a node may take a transaction and report an error, or the other way round.
  datatype Broadcast = Broadcast(takes: bool, error: Option<string>)

  predicate Contains(s: string, part: string) {
    part <= s || (s != [] && Contains(s[1..], part))
  }

  predicate IsAlreadyKnownErr(message: string) {
    Contains(Lower(message), "already known") || Contains(Lower(message), "known transaction")
  }

  // The replies that end the failover with success.
  predicate Acknowledges(b: Broadcast) {
    b.error.None? || IsAlreadyKnownErr(b.error.value)
  }

  // The nodes' behaviour during one SignAndSend, one entry per broadcaster in failover order:
  // answers to PendingNonceAt, tip and fee quotes, and the broadcasts. None is an error.
  datatype Script = Script(pending: seq<Option<nat>>, tips: seq<Option<int>>, fees: seq<Option<int>>,
                           signs: bool, sends: seq<Broadcast>)

  datatype Outcome = Sent(nonce: nat) | NonceError | TipError | FeeError | SignError | SendError

  // The first node that answers wins.
  function FirstAnswer(answers: seq<Option<nat>>): Option<nat> {
    if answers == [] then None
    else if answers[0].Some? then answers[0]
    else FirstAnswer(answers[1..])
  }

  // The first node that quotes a positive value wins.
  function FirstPositive(quotes: seq<Option<int>>): Option<int> {
    if quotes == [] then None
    else if quotes[0].Some? && quotes[0].value > 0 then quotes[0]
    else FirstPositive(quotes[1..])
  }

  // sendWithFailover: whether the transaction ends up taken, and whether the caller is told so.
  function SendAll(sends: seq<Broadcast>, taken: bool): (bool, bool) {
    if sends == [] then (taken, false) else
      var takenNow := taken || sends[0].takes;
      if Acknowledges(sends[0]) then (takenNow, true) else SendAll(sends[1..], takenNow)
  }

  // next is the allocator's field; accepted lists the nonces of the transactions the chain took,
  // on an account that had made start transactions before.
  datatype State = State(next: nat, start: nat, accepted: seq<nat>) {
    // What a node that has seen everything answers to PendingNonceAt.
    function Pending(): nat { start + |accepted| }
  }

  // SignAndSend as a function of the state.
  function Step(s: State, e: Script): (State, Outcome) {
    var picked := if s.next == 0 then FirstAnswer(e.pending) else Some(s.next);
    if picked.None? then (s, NonceError) else
      var nonce := picked.value;
      var s1 := s.(next := nonce);
      if FirstPositive(e.tips).None? then (s1, TipError)
      else if FirstPositive(e.fees).None? then (s1, FeeError)
      else if !e.signs then (s1.(next := 0), SignError)
      else
        var (taken, ok) := SendAll(e.sends, false);
        var accepted := if taken then s.accepted + [nonce] else s.accepted;
        if ok then (State(nonce + 1, s.start, accepted), Sent(nonce))
        else (State(0, s.start, accepted), SendError)
  }

  class Chain {
    const start: nat
    var accepted: seq<nat>

    constructor (start: nat)
      ensures this.start == start && accepted == []
    {
      this.start := start;
      accepted := [];
    }

    // One broadcast of a transaction; taken tells whether the chain has it already.
    method Send(nonce: nat, taken: bool, node: Broadcast) returns (takenNow: bool, error: Option<string>)
      modifies this
      ensures takenNow == (taken || node.takes) && error == node.error
      ensures accepted == if takenNow && !taken then old(accepted) + [nonce] else old(accepted)
    {
      takenNow := taken || node.takes;
      if takenNow && !taken {
        accepted := accepted + [nonce];
      }
      error := node.error;
    }
  }

  class Nonces {
    var next: nat // 0 means "ask the node"
    const chain: Chain

    constructor (chain: Chain)
      ensures this.chain == chain && next == 0
    {
      this.chain := chain;
      next := 0;
    }

    ghost function Now(): State
      reads this, chain
    {
      State(next, chain.start, chain.accepted)
    }

    method PendingNonceWithFailover(answers: seq<Option<nat>>) returns (v: Option<nat>)
      ensures v == FirstAnswer(answers)
    {
      for i := 0 to |answers|
        invariant FirstAnswer(answers) == FirstAnswer(answers[i..])
      {
        if answers[i].Some? {
          return answers[i];
        }
      }
      return None;
    }

    method SuggestWithFailover(quotes: seq<Option<int>>) returns (v: Option<int>)
      ensures v == FirstPositive(quotes)
    {
      for i := 0 to |quotes|
        invariant FirstPositive(quotes) == FirstPositive(quotes[i..])
      {
        if quotes[i].Some? && quotes[i].value > 0 {
          return quotes[i];
        }
      }
      return None;
    }

    method Allocate(answers: seq<Option<nat>>) returns (nonce: Option<nat>)
      modifies this
      ensures nonce == if old(next) == 0 then FirstAnswer(answers) else Some(old(next))
      ensures next == if nonce.Some? then nonce.value else old(next)
    {
      if next == 0 {
        var pending := PendingNonceWithFailover(answers);
        if pending.None? {
          return None;
        }
        next := pending.value;
      }
      return Some(next);
    }

    method SendWithFailover(nonce: nat, sends: seq<Broadcast>) returns (ok: bool)
      modifies chain
      ensures var (taken, told) := SendAll(sends, false);
        ok == told && chain.accepted == if taken then old(chain.accepted) + [nonce] else old(chain.accepted)
    {
      var taken := false;
      for i := 0 to |sends|
        invariant SendAll(sends, false) == SendAll(sends[i..], taken)
        invariant chain.accepted == if taken then old(chain.accepted) + [nonce] else old(chain.accepted)
      {
        var error;
        taken, error := chain.Send(nonce, taken, sends[i]);
        if error.None? || IsAlreadyKnownErr(error.value) {
          return true;
        }
      }
      return false;
    }

    method SignAndSend(e: Script) returns (r: Outcome)
      modifies this, chain
      ensures (Now(), r) == Step(old(Now()), e)
    {
      var nonce := Allocate(e.pending);
      if nonce.None? {
        return NonceError;
      }
      var tip := SuggestWithFailover(e.tips);
      if tip.None? {
        return TipError;
      }
      var fee := SuggestWithFailover(e.fees);
      if fee.None? {
        return FeeError;
      }
      if !e.signs {
        next := 0;
        return SignError;
      }
      var ok := SendWithFailover(nonce.value, e.sends);
      if !ok {
        next := 0;
        return SendError;
      }
      next := nonce.value + 1;
      return Sent(nonce.value);
    }
  }

  // ----- every run -----

  // The chain's view: no gap and no repeat.
  ghost predicate Gapless(s: State) {
    forall i :: 0 <= i < |s.accepted| ==> s.accepted[i] == s.start + i
  }

  ghost predicate Inv(s: State) {
    Gapless(s) && (s.next == 0 || s.next == s.Pending())
  }

  // A node that answers has seen every accepted transaction.
  ghost predicate Honest(s: State, e: Script) {
    forall i :: 0 <= i < |e.pending| && e.pending[i].Some? ==> e.pending[i].value == s.Pending()
  }

  function Run(s: State, scripts: seq<Script>): State {
    if scripts == [] then s else Step(Run(s, scripts[..|scripts| - 1]), scripts[|scripts| - 1]).0
  }

  // The outcome of call k in a run.
  function OutcomeOf(s: State, scripts: seq<Script>, k: nat): Outcome
    requires k < |scripts|
  {
    Step(Run(s, scripts[..k]), scripts[k]).1
  }

  ghost predicate HonestRun(s: State, scripts: seq<Script>) {
    forall k :: 0 <= k < |scripts| ==> Honest(Run(s, scripts[..k]), scripts[k])
  }

  lemma {:induction false} FirstAnswerIsHonest(s: State, answers: seq<Option<nat>>)
    requires forall i :: 0 <= i < |answers| && answers[i].Some? ==> answers[i].value == s.Pending()
    ensures FirstAnswer(answers) == None || FirstAnswer(answers) == Some(s.Pending())
  {
    if answers != [] && answers[0].None? {
      FirstAnswerIsHonest(s, answers[1..]);
    }
  }

  // The transaction is taken exactly if a node takes it before or at the first that acknowledges.
  ghost predicate Taken(sends: seq<Broadcast>) {
    exists i :: 0 <= i < |sends| && sends[i].takes && (forall j :: 0 <= j < i ==> !Acknowledges(sends[j]))
  }

  // The first node that acknowledges does so although neither it nor one before it took the
  // transaction.
  ghost predicate FalselyTold(sends: seq<Broadcast>) {
    && (exists i :: 0 <= i < |sends| && Acknowledges(sends[i]))
    && !Taken(sends)
  }

  lemma {:induction false} SendAllMeans(sends: seq<Broadcast>, taken: bool)
    ensures SendAll(sends, taken).0 <==> taken || Taken(sends)
    ensures SendAll(sends, taken).1 <==> exists i :: 0 <= i < |sends| && Acknowledges(sends[i])
  {
    if sends != [] {
      var rest := sends[1..];
      assert forall i :: 0 <= i < |rest| ==> rest[i] == sends[i + 1];
      SendAllMeans(rest, taken || sends[0].takes);
      if !Acknowledges(sends[0]) {
        TakenLater(sends);
        if SendAll(sends, taken).1 {
          var i :| 0 <= i < |rest| && Acknowledges(rest[i]);
          assert Acknowledges(sends[i + 1]);
        }
      }
    }
  }

  lemma TakenLater(sends: seq<Broadcast>)
    requires sends != [] && !Acknowledges(sends[0])
    ensures Taken(sends) <==> sends[0].takes || Taken(sends[1..])
  {
    var rest := sends[1..];
    if Taken(rest) {
      var i :| 0 <= i < |rest| && rest[i].takes && (forall j :: 0 <= j < i ==> !Acknowledges(rest[j]));
      assert sends[i + 1].takes;
      forall j | 0 <= j < i + 1 ensures !Acknowledges(sends[j]) {
        assert j > 0 ==> sends[j] == rest[j - 1];
      }
    }
    if Taken(sends) && !sends[0].takes {
      var i :| 0 <= i < |sends| && sends[i].takes && (forall j :: 0 <= j < i ==> !Acknowledges(sends[j]));
      assert rest[i - 1].takes;
      assert forall j :: 0 <= j < i - 1 ==> rest[j] == sends[j + 1];
    }
  }

  // The call gets as far as broadcasting.
  ghost predicate Broadcasts(s: State, e: Script) {
    && (s.next != 0 || FirstAnswer(e.pending).Some?)
    && FirstPositive(e.tips).Some? && FirstPositive(e.fees).Some? && e.signs
  }

  // One call: if no node acknowledges falsely, the invariant is kept, the chain gains at most the
  // pending nonce, and a reported success has put exactly that nonce on the chain.
  lemma StepKeepsInv(s: State, e: Script)
    requires Inv(s) && Honest(s, e) && !FalselyTold(e.sends)
    ensures var (t, r) := Step(s, e);
      && Inv(t) && t.start == s.start
      && (t.accepted == s.accepted || t.accepted == s.accepted + [s.Pending()])
      && (r.Sent? ==> r.nonce == s.Pending() && t.accepted == s.accepted + [r.nonce])
  {
    FirstAnswerIsHonest(s, e.pending);
    SendAllMeans(e.sends, false);
  }

  // That hypothesis is exact: a call keeps the invariant if and only if it does not reach a
  // broadcast that is acknowledged falsely.
  lemma InvKeptExactlyWhen(s: State, e: Script)
    requires Inv(s) && Honest(s, e)
    ensures Inv(Step(s, e).0) <==> !(Broadcasts(s, e) && FalselyTold(e.sends))
  {
    FirstAnswerIsHonest(s, e.pending);
    SendAllMeans(e.sends, false);
  }

  ghost predicate NeverFalselyTold(s: State, scripts: seq<Script>) {
    forall k :: 0 <= k < |scripts| ==> !(Broadcasts(Run(s, scripts[..k]), scripts[k]) && FalselyTold(scripts[k].sends))
  }

  // Over every run, with arbitrary failures but no false acknowledgement, next is 0 or the pending
  // nonce, and the accepted nonces run start, start + 1, start + 2, ... without gap or repeat.
  lemma {:induction false} RunKeepsInv(start: nat, scripts: seq<Script>)
    requires HonestRun(State(0, start, []), scripts) && NeverFalselyTold(State(0, start, []), scripts)
    ensures Inv(Run(State(0, start, []), scripts)) && Run(State(0, start, []), scripts).start == start
  {
    var s0 := State(0, start, []);
    if scripts != [] {
      var k := |scripts| - 1;
      PrefixesAreGood(s0, scripts, k);
      RunKeepsInv(start, scripts[..k]);
      assert Honest(Run(s0, scripts[..k]), scripts[k]);
      InvKeptExactlyWhen(Run(s0, scripts[..k]), scripts[k]);
    }
  }

  ghost predicate InvThroughout(s: State, scripts: seq<Script>) {
    forall k :: 0 <= k <= |scripts| ==> Inv(Run(s, scripts[..k]))
  }

  // Over a whole run: the invariant holds throughout exactly when no call is told falsely.
  lemma InvThroughoutExactlyWhen(start: nat, scripts: seq<Script>)
    requires HonestRun(State(0, start, []), scripts)
    ensures InvThroughout(State(0, start, []), scripts) <==> NeverFalselyTold(State(0, start, []), scripts)
  {
    var s0 := State(0, start, []);
    if InvThroughout(s0, scripts) {
      forall k | 0 <= k < |scripts|
        ensures !(Broadcasts(Run(s0, scripts[..k]), scripts[k]) && FalselyTold(scripts[k].sends))
      {
        assert scripts[..k + 1][..k] == scripts[..k];
        assert Inv(Run(s0, scripts[..k])) && Inv(Run(s0, scripts[..k + 1]));
        assert Honest(Run(s0, scripts[..k]), scripts[k]);
        InvKeptExactlyWhen(Run(s0, scripts[..k]), scripts[k]);
      }
    }
    if NeverFalselyTold(s0, scripts) {
      forall k | 0 <= k <= |scripts| ensures Inv(Run(s0, scripts[..k])) {
        PrefixesAreGood(s0, scripts, k);
        RunKeepsInv(start, scripts[..k]);
      }
    }
  }

  lemma LowerCaseStays(s: string)
    requires forall i :: 0 <= i < |s| ==> !('A' <= s[i] <= 'Z')
    ensures Lower(s) == s
  {
  }

  lemma {:induction false} ContainsMiddle(a: string, part: string, b: string)
    ensures Contains(a + part + b, part)
  {
    if a == [] {
      assert part <= a + part + b;
    } else {
      ContainsMiddle(a[1..], part, b);
      assert (a + part + b)[1..] == a[1..] + part + b;
    }
  }

  // The test for "already known" looks for substrings, and reads any message around one of them
  // as success: "unknown transaction type" too.
  lemma UnknownReadsAsKnown(a: string, b: string)
    ensures IsAlreadyKnownErr(a + "known transaction" + b)
  {
    var part := "known transaction";
    LowerCaseStays(part);
    assert Lower(a + part + b) == Lower(a) + Lower(part) + Lower(b);
    ContainsMiddle(Lower(a), part, Lower(b));
  }

  // A node that rejects a transaction with that message makes the allocator skip a nonce: the next
  // call puts 8 on a chain that waits for 7.
  lemma FalseAcknowledgementLeavesGap() returns (scripts: seq<Script>)
    ensures HonestRun(State(0, 7, []), scripts) && Run(State(0, 7, []), scripts).accepted == [8]
  {
    var rejected := Broadcast(false, Some("un" + "known transaction" + " type"));
    var e0 := Script([Some(7)], [Some(1)], [Some(1)], true, [rejected]);
    var e1 := Script([], [Some(1)], [Some(1)], true, [Broadcast(true, None)]);
    var s0 := State(0, 7, []);
    UnknownReadsAsKnown("un", " type");
    assert SendAll(e0.sends, false) == (false, true) && SendAll(e1.sends, false) == (true, true);
    assert Step(s0, e0).0 == State(8, 7, []);
    scripts := [] + [e0] + [e1];
    RunExtends(s0, [], e0);
    RunExtends(s0, [] + [e0], e1);
    assert scripts[..1] == [] + [e0] && scripts[..0] == [];
  }

  lemma RunExtends(s: State, scripts: seq<Script>, e: Script)
    ensures Run(s, scripts + [e]) == Step(Run(s, scripts), e).0
  {
    assert (scripts + [e])[..|scripts|] == scripts;
  }

  // Successful calls hand out strictly increasing nonces.
  lemma {:induction false} SentNoncesIncrease(start: nat, scripts: seq<Script>, i: nat, j: nat)
    requires HonestRun(State(0, start, []), scripts) && NeverFalselyTold(State(0, start, []), scripts)
    requires i < j < |scripts|
    requires OutcomeOf(State(0, start, []), scripts, i).Sent? && OutcomeOf(State(0, start, []), scripts, j).Sent?
    ensures OutcomeOf(State(0, start, []), scripts, i).nonce < OutcomeOf(State(0, start, []), scripts, j).nonce
  {
    var s0 := State(0, start, []);
    SentIsPending(start, scripts, i);
    SentIsPending(start, scripts, j);
    AcceptedOnlyGrows(s0, scripts, i + 1, j);
  }

  // A reported success was the pending nonce, and is on the chain after the call.
  lemma SentIsPending(start: nat, scripts: seq<Script>, k: nat)
    requires HonestRun(State(0, start, []), scripts) && NeverFalselyTold(State(0, start, []), scripts) && k < |scripts|
    requires OutcomeOf(State(0, start, []), scripts, k).Sent?
    ensures var s := Run(State(0, start, []), scripts[..k]);
      s.start == start && OutcomeOf(State(0, start, []), scripts, k).nonce == s.Pending()
      && |Run(State(0, start, []), scripts[..k + 1]).accepted| == |s.accepted| + 1
  {
    var s0 := State(0, start, []);
    PrefixesAreGood(s0, scripts, k);
    RunKeepsInv(start, scripts[..k]);
    assert scripts[..k + 1][..k] == scripts[..k];
    assert Honest(Run(s0, scripts[..k]), scripts[k]);
    assert Broadcasts(Run(s0, scripts[..k]), scripts[k]);
    StepKeepsInv(Run(s0, scripts[..k]), scripts[k]);
  }

  lemma PrefixesAreGood(s: State, scripts: seq<Script>, k: nat)
    requires HonestRun(s, scripts) && k <= |scripts|
    ensures HonestRun(s, scripts[..k])
    ensures NeverFalselyTold(s, scripts) ==> NeverFalselyTold(s, scripts[..k])
  {
    assert forall j :: 0 <= j < k ==> scripts[..k][..j] == scripts[..j];
  }

  lemma StepOnlyAppends(s: State, e: Script)
    ensures s.accepted <= Step(s, e).0.accepted
  {
  }

  lemma {:induction false} AcceptedOnlyGrows(s: State, scripts: seq<Script>, i: nat, j: nat)
    requires i <= j <= |scripts|
    ensures Run(s, scripts[..i]).accepted <= Run(s, scripts[..j]).accepted
    decreases j
  {
    if i < j {
      AcceptedOnlyGrows(s, scripts, i, j - 1);
      StepOnlyAppends(Run(s, scripts[..j - 1]), scripts[j - 1]);
      assert scripts[..j][..j - 1] == scripts[..j - 1];
    }
  }

  // However a run has failed so far, a call that meets one answering node, quotes, and a node that
  // acknowledges, sends the chain's pending nonce; it is on the chain if one took it by then.
  lemma RecoversFromAnyFailure(s: State, e: Script)
    requires Inv(s) && Honest(s, e)
    requires FirstAnswer(e.pending).Some? && FirstPositive(e.tips).Some? && FirstPositive(e.fees).Some?
    requires e.signs && SendAll(e.sends, false).1
    ensures Step(s, e).1 == Sent(s.Pending())
    ensures Step(s, e).0.accepted == s.accepted + [s.Pending()] <==> Taken(e.sends)
  {
    FirstAnswerIsHonest(s, e.pending);
    SendAllMeans(e.sends, false);
  }

  // The nonce a call works with.
  function Picked(s: State, e: Script): Option<nat> {
    if s.next == 0 then FirstAnswer(e.pending) else Some(s.next)
  }

  // The call puts a transaction on the chain under another nonce than the one it waits for.
  ghost predicate Misplaces(s: State, e: Script) {
    Broadcasts(s, e) && Taken(e.sends) && Picked(s, e) != Some(s.Pending())
  }

  // From any state and whatever the nodes answer: the chain is gapless after a call exactly if it
  // was before and the call does not misplace its transaction. So a wrong answer, a false
  // acknowledgement or a stale next harms only if a taken transaction carries it.
  lemma GaplessExactlyWhen(s: State, e: Script)
    ensures Gapless(Step(s, e).0) <==> Gapless(s) && !Misplaces(s, e)
    ensures Step(s, e).0.start == s.start
  {
    SendAllMeans(e.sends, false);
    var t, n := Step(s, e).0, |s.accepted|;
    if t.accepted != s.accepted {
      assert t.accepted == s.accepted + [Picked(s, e).value];
      assert t.accepted[n] == Picked(s, e).value;
      assert forall i :: 0 <= i < n ==> t.accepted[i] == s.accepted[i];
    }
  }

  ghost predicate MisplacesAt(s: State, scripts: seq<Script>, k: nat)
    requires k < |scripts|
  {
    Misplaces(Run(s, scripts[..k]), scripts[k])
  }

  ghost predicate NeverMisplaces(s: State, scripts: seq<Script>, n: nat)
    requires n <= |scripts|
  {
    forall k :: 0 <= k < n ==> !MisplacesAt(s, scripts, k)
  }

  lemma GaplessOneMore(s: State, scripts: seq<Script>, n: nat)
    requires 0 < n <= |scripts|
    ensures Gapless(Run(s, scripts[..n])) <==> Gapless(Run(s, scripts[..n - 1])) && !MisplacesAt(s, scripts, n - 1)
  {
    assert scripts[..n][..n - 1] == scripts[..n - 1];
    GaplessExactlyWhen(Run(s, scripts[..n - 1]), scripts[n - 1]);
  }

  lemma NeverMisplacesOneMore(s: State, scripts: seq<Script>, n: nat)
    requires 0 < n <= |scripts|
    ensures NeverMisplaces(s, scripts, n) <==> NeverMisplaces(s, scripts, n - 1) && !MisplacesAt(s, scripts, n - 1)
  {
  }

  lemma {:induction false} GaplessPrefixExactlyWhen(s: State, scripts: seq<Script>, n: nat)
    requires Gapless(s) && n <= |scripts|
    ensures Gapless(Run(s, scripts[..n])) <==> NeverMisplaces(s, scripts, n)
  {
    if n > 0 {
      GaplessPrefixExactlyWhen(s, scripts, n - 1);
      GaplessOneMore(s, scripts, n);
      NeverMisplacesOneMore(s, scripts, n);
    } else {
      assert scripts[..0] == [];
    }
  }

  // Over every run, with no hypothesis on the nodes: the accepted nonces have no gap and no repeat
  // exactly if no call of the run misplaces its transaction.
  lemma GaplessRunExactlyWhen(s: State, scripts: seq<Script>)
    requires Gapless(s)
    ensures Gapless(Run(s, scripts)) <==>
      forall k :: 0 <= k < |scripts| ==> !Misplaces(Run(s, scripts[..k]), scripts[k])
  {
    GaplessPrefixExactlyWhen(s, scripts, |scripts|);
    assert scripts[..|scripts|] == scripts;
    assert NeverMisplaces(s, scripts, |scripts|) <==>
      forall k :: 0 <= k < |scripts| ==> !Misplaces(Run(s, scripts[..k]), scripts[k]) by {
      assert forall k :: 0 <= k < |scripts| ==>
        (MisplacesAt(s, scripts, k) <==> Misplaces(Run(s, scripts[..k]), scripts[k]));
    }
  }

  // A false acknowledgement alone need not leave a gap: if a later call fails before it
  // broadcasts, the allocator asks again.
  lemma FalseAcknowledgementCanHeal() returns (scripts: seq<Script>)
    ensures HonestRun(State(0, 7, []), scripts) && !NeverFalselyTold(State(0, 7, []), scripts)
    ensures Run(State(0, 7, []), scripts) == State(8, 7, [7])
  {
    var rejected := Broadcast(false, Some("un" + "known transaction" + " type"));
    UnknownReadsAsKnown("un", " type");
    var e0 := Script([Some(7)], [Some(1)], [Some(1)], true, [rejected]);
    var e1 := Script([], [Some(1)], [Some(1)], false, []);
    var e2 := Script([Some(7)], [Some(1)], [Some(1)], true, [Broadcast(true, None)]);
    ToldStep(rejected);
    assert Step(State(8, 7, []), e1).0 == State(0, 7, []);
    assert SendAll(e2.sends, false) == (true, true);
    scripts := [] + [e0] + [e1] + [e2];
    ThreeSteps(State(0, 7, []), State(8, 7, []), State(0, 7, []), e0, e1, e2);
  }

  lemma ToldStep(node: Broadcast)
    requires !node.takes && Acknowledges(node)
    ensures var e := Script([Some(7)], [Some(1)], [Some(1)], true, [node]);
      Step(State(0, 7, []), e).0 == State(8, 7, []) && Broadcasts(State(0, 7, []), e) && FalselyTold(e.sends)
  {
    var e := Script([Some(7)], [Some(1)], [Some(1)], true, [node]);
    assert SendAll(e.sends, false) == (false, true);
    SendAllMeans(e.sends, false);
  }

  lemma ThreeSteps(s0: State, s1: State, s2: State, e0: Script, e1: Script, e2: Script)
    requires Step(s0, e0).0 == s1 && Step(s1, e1).0 == s2
    requires Honest(s0, e0) && Honest(s1, e1) && Honest(s2, e2)
    requires Broadcasts(s0, e0) && FalselyTold(e0.sends)
    ensures var scripts := [] + [e0] + [e1] + [e2];
      Run(s0, scripts) == Step(s2, e2).0 && HonestRun(s0, scripts) && !NeverFalselyTold(s0, scripts)
  {
    var scripts := [] + [e0] + [e1] + [e2];
    RunExtends(s0, [], e0);
    RunExtends(s0, [] + [e0], e1);
    RunExtends(s0, [] + [e0] + [e1], e2);
    assert scripts[..0] == [] && scripts[..1] == [] + [e0] && scripts[..2] == [] + [e0] + [e1];
    assert Broadcasts(Run(s0, scripts[..0]), scripts[0]) && FalselyTold(scripts[0].sends);
  }

  // ----- what one call does, read off the script -----

  ghost predicate OccursAt(s: string, part: string, i: nat) {
    i <= |s| && part <= s[i..]
  }

  lemma {:induction false} ContainsExactlyWhen(s: string, part: string)
    ensures Contains(s, part) <==> exists i: nat :: OccursAt(s, part, i)
  {
    if part <= s {
      assert s[0..] == s && OccursAt(s, part, 0);
    } else if s != [] {
      ContainsExactlyWhen(s[1..], part);
      if Contains(s[1..], part) {
        var i: nat :| OccursAt(s[1..], part, i);
        assert s[1..][i..] == s[i + 1..];
        assert OccursAt(s, part, i + 1);
      }
      if i: nat :| OccursAt(s, part, i) {
        assert i > 0 && s[1..][i - 1..] == s[i..];
        assert OccursAt(s[1..], part, i - 1);
      }
    }
  }

  // One of the two phrases stands somewhere in the message, in any mixture of cases.
  ghost predicate SaysKnown(message: string) {
    exists i: nat :: OccursAt(Lower(message), "already known", i) || OccursAt(Lower(message), "known transaction", i)
  }

  // Exactly these replies end the failover.
  lemma AcknowledgesExactlyWhen(b: Broadcast)
    ensures Acknowledges(b) <==> b.error == None || SaysKnown(b.error.value)
  {
    if b.error.Some? {
      var message := Lower(b.error.value);
      ContainsExactlyWhen(message, "already known");
      ContainsExactlyWhen(message, "known transaction");
    }
  }

  // Case does not matter.
  lemma CaseDoesNotMatter(message: string)
    ensures SaysKnown(message) <==> SaysKnown(Lower(message))
  {
    assert Lower(Lower(message)) == Lower(message);
  }

  ghost predicate SomeAnswers(answers: seq<Option<nat>>) {
    exists i :: 0 <= i < |answers| && answers[i].Some?
  }

  // n is what the first node to answer says.
  ghost predicate IsFirstAnswer(answers: seq<Option<nat>>, n: nat) {
    exists i :: 0 <= i < |answers| && answers[i] == Some(n) && (forall j :: 0 <= j < i ==> answers[j] == None)
  }

  lemma {:induction false} FirstAnswerIs(answers: seq<Option<nat>>)
    ensures FirstAnswer(answers).Some? <==> SomeAnswers(answers)
    ensures FirstAnswer(answers).Some? ==> IsFirstAnswer(answers, FirstAnswer(answers).value)
  {
    if answers != [] {
      var rest := answers[1..];
      FirstAnswerIs(rest);
      assert forall i :: 0 <= i < |rest| ==> rest[i] == answers[i + 1];
      if answers[0].Some? {
        assert answers[0] == Some(answers[0].value);
      } else if FirstAnswer(rest).Some? {
        var n := FirstAnswer(rest).value;
        var i :| 0 <= i < |rest| && rest[i] == Some(n) && (forall j :: 0 <= j < i ==> rest[j] == None);
        assert answers[i + 1] == Some(n);
        assert forall j :: 0 <= j < i + 1 ==> answers[j] == None by {
          assert forall j :: 0 < j < i + 1 ==> answers[j] == rest[j - 1];
        }
      }
    }
  }

  ghost predicate IsPositive(quote: Option<int>) { quote.Some? && quote.value > 0 }

  ghost predicate SomePositive(quotes: seq<Option<int>>) {
    exists i :: 0 <= i < |quotes| && IsPositive(quotes[i])
  }

  // v is the first positive quote.
  ghost predicate IsFirstPositive(quotes: seq<Option<int>>, v: int) {
    v > 0
    && exists i :: 0 <= i < |quotes| && quotes[i] == Some(v) && (forall j :: 0 <= j < i ==> !IsPositive(quotes[j]))
  }

  lemma {:induction false} FirstPositiveIs(quotes: seq<Option<int>>)
    ensures FirstPositive(quotes).Some? <==> SomePositive(quotes)
    ensures FirstPositive(quotes).Some? ==> IsFirstPositive(quotes, FirstPositive(quotes).value)
  {
    if quotes != [] {
      var rest := quotes[1..];
      FirstPositiveIs(rest);
      assert forall i :: 0 <= i < |rest| ==> rest[i] == quotes[i + 1];
      if IsPositive(quotes[0]) {
        assert quotes[0] == Some(quotes[0].value);
      } else if FirstPositive(rest).Some? {
        var v := FirstPositive(rest).value;
        var i :| 0 <= i < |rest| && rest[i] == Some(v) && (forall j :: 0 <= j < i ==> !IsPositive(rest[j]));
        assert quotes[i + 1] == Some(v);
        assert forall j :: 0 <= j < i + 1 ==> !IsPositive(quotes[j]) by {
          assert forall j :: 0 < j < i + 1 ==> quotes[j] == rest[j - 1];
        }
      }
    }
  }

  // The call has nonce n to work with: its own, or the first answer.
  ghost predicate WorksWith(s: State, e: Script, n: nat) {
    if s.next != 0 then n == s.next else IsFirstAnswer(e.pending, n)
  }

  ghost predicate HasNonce(s: State, e: Script) { s.next != 0 || SomeAnswers(e.pending) }

  // Some node ends the failover: it reports no error, or one that says the transaction is known.
  ghost predicate SomeEnds(sends: seq<Broadcast>) {
    exists i :: 0 <= i < |sends| && (sends[i].error == None || SaysKnown(sends[i].error.value))
  }

  lemma EndsExactlyWhen(sends: seq<Broadcast>)
    ensures SendAll(sends, false).1 <==> SomeEnds(sends)
  {
    SendAllMeans(sends, false);
    forall i | 0 <= i < |sends|
      ensures Acknowledges(sends[i]) <==> sends[i].error == None || SaysKnown(sends[i].error.value)
    {
      AcknowledgesExactlyWhen(sends[i]);
    }
  }

  // Which outcome a call has, from what the nodes do.
  lemma OutcomeExactlyWhen(s: State, e: Script)
    ensures var r := Step(s, e).1;
      && (r == NonceError <==> !HasNonce(s, e))
      && (r == TipError <==> HasNonce(s, e) && !SomePositive(e.tips))
      && (r == FeeError <==> HasNonce(s, e) && SomePositive(e.tips) && !SomePositive(e.fees))
      && (r == SignError <==> HasNonce(s, e) && SomePositive(e.tips) && SomePositive(e.fees) && !e.signs)
      && (r == SendError <==>
            HasNonce(s, e) && SomePositive(e.tips) && SomePositive(e.fees) && e.signs && !SomeEnds(e.sends))
      && (r.Sent? <==> HasNonce(s, e) && SomePositive(e.tips) && SomePositive(e.fees) && e.signs && SomeEnds(e.sends))
  {
    FirstAnswerIs(e.pending);
    FirstPositiveIs(e.tips);
    FirstPositiveIs(e.fees);
    EndsExactlyWhen(e.sends);
  }

  // And what it leaves: a quote that fails keeps the nonce for the next call, a signature or a
  // broadcast that fails makes the next call ask again, a success moves on by one.
  lemma NextAfterCall(s: State, e: Script)
    ensures var (t, r) := Step(s, e);
      match r
      case NonceError => t.next == s.next == 0
      case TipError => WorksWith(s, e, t.next)
      case FeeError => WorksWith(s, e, t.next)
      case SignError => t.next == 0
      case SendError => t.next == 0
      case Sent(n) => WorksWith(s, e, n) && t.next == n + 1
    ensures !Step(s, e).1.Sent? && !Step(s, e).1.SendError? ==> Step(s, e).0.accepted == s.accepted
  {
    FirstAnswerIs(e.pending);
  }

  // If every node refuses with an error that says neither phrase, the call fails and asks again.
  lemma RefusedEverywhere(s: State, e: Script)
    requires HasNonce(s, e) && SomePositive(e.tips) && SomePositive(e.fees) && e.signs
    requires forall i :: 0 <= i < |e.sends| ==> e.sends[i].error.Some? && !SaysKnown(e.sends[i].error.value)
    ensures Step(s, e).1 == SendError && Step(s, e).0.next == 0
  {
    OutcomeExactlyWhen(s, e);
  }

  // A node that answers "already known" after another took the transaction makes it a success, and
  // the transaction is on the chain once.
  lemma KnownAfterTaken(s: State, taker: Broadcast, knower: Broadcast, e: Script)
    requires s.next != 0 && SomePositive(e.tips) && SomePositive(e.fees) && e.signs
    requires taker.takes && knower.error == Some("already known") && e.sends == [taker, knower]
    ensures Step(s, e) == (State(s.next + 1, s.start, s.accepted + [s.next]), Sent(s.next))
  {
    LowerCaseStays("already known");
    assert "already known"[0..] == "already known";
    assert OccursAt(Lower("already known"), "already known", 0);
    assert SaysKnown(e.sends[1].error.value);
    OutcomeExactlyWhen(s, e);
    SendAllMeans(e.sends, false);
    assert e.sends[0].takes;
    assert Taken(e.sends);
  }

  // A lagging node makes the allocator reuse a nonce after a failed call.
  lemma LaggingNodeRepeatsNonce()
    ensures exists s: State, e: Script :: Inv(s) && Step(s, e).0.accepted == [7, 7]
  {
    var s := State(0, 7, [7]);
    var e := Script([Some(7)], [Some(1)], [Some(1)], true, [Broadcast(true, None)]);
    assert SendAll(e.sends, false) == (true, true);
    assert Inv(s) && Step(s, e).0.accepted == [7, 7];
  }
}
