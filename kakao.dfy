/** The outgoing KakaoTalk message queue (`KakaoAutomation`): messages wait in
    a first-in first-out queue; one at a time is sent, a failed send is retried
    from the back of the queue up to three times, and then the message is
    dropped.

    `processQueue` awaits the send in the middle of its body. Its model is
    therefore two steps: `BeginProcess` runs up to the send and sets the
    processing flag; `FinishProcess` is the continuation once the send has
    succeeded or failed. Other calls (such as `AddToQueue`) may run between
    the two. */
module Kakao {
  import opened Common

  datatype QueuedMessage = QueuedMessage(phoneNumber: string, message: string, retries: nat)

  /** Failed sends after which a message is given up. */
  const MaxRetries: nat := 3

  predicate RetriesBounded(q: seq<QueuedMessage>) {
    forall i | 0 <= i < |q| :: q[i].retries <= MaxRetries
  }

  /** The queue after the head's send attempt: on success the head leaves; on
      failure it goes to the back with one more retry, or leaves once it has
      used up its retries. */
  function AfterSend(q: seq<QueuedMessage>, sent: bool): (r: seq<QueuedMessage>)
    requires |q| > 0
    ensures |r| <= |q|
    ensures sent ==> r == q[1..]
    ensures !sent && q[0].retries < MaxRetries ==>
              |r| == |q| && r[..|q| - 1] == q[1..] && r[|q| - 1] == q[0].(retries := q[0].retries + 1)
    ensures !sent && q[0].retries >= MaxRetries ==> r == q[1..]
  {
    if sent then q[1..]
    else if q[0].retries < MaxRetries then q[1..] + [q[0].(retries := q[0].retries + 1)]
    else q[1..]
  }

  /** No message ever exceeds three retries. */
  lemma RetriesStayBounded(q: seq<QueuedMessage>, sent: bool)
    requires |q| > 0 && RetriesBounded(q)
    ensures RetriesBounded(AfterSend(q, sent))
  {
  }

  /** The send attempts a queue can still cost: each message may be tried
      `MaxRetries + 1 - retries` more times. */
  function Potential(q: seq<QueuedMessage>): nat
    requires RetriesBounded(q)
  {
    if q == [] then 0 else Potential(q[..|q| - 1]) + (MaxRetries + 1 - q[|q| - 1].retries)
  }

  lemma {:induction false} PotentialFront(q: seq<QueuedMessage>)
    requires |q| > 0 && RetriesBounded(q)
    ensures Potential(q) == (MaxRetries + 1 - q[0].retries) + Potential(q[1..])
  {
    if |q| > 1 {
      var front := q[..|q| - 1];
      PotentialFront(front);
      assert front[1..] == q[1..][..|q[1..]| - 1];
    }
  }

  /** A new message adds four attempts. */
  lemma PotentialOfPush(q: seq<QueuedMessage>, m: QueuedMessage)
    requires RetriesBounded(q) && m.retries == 0
    ensures RetriesBounded(q + [m]) && Potential(q + [m]) == Potential(q) + MaxRetries + 1
  {
    assert (q + [m])[..|q|] == q;
  }

  /** Every send attempt, whatever its outcome, uses up at least one unit. */
  lemma PotentialDecreases(q: seq<QueuedMessage>, sent: bool)
    requires |q| > 0 && RetriesBounded(q)
    ensures RetriesBounded(AfterSend(q, sent)) && Potential(AfterSend(q, sent)) < Potential(q)
  {
    PotentialFront(q);
    var r := AfterSend(q, sent);
    if !sent && q[0].retries < MaxRetries {
      assert r[..|r| - 1] == q[1..];
    }
  }

  /** The queue after a run of send outcomes, stopping when it is empty. */
  function Run(q: seq<QueuedMessage>, outcomes: seq<bool>): seq<QueuedMessage>
    decreases |outcomes|
  {
    if q == [] || outcomes == [] then q else Run(AfterSend(q, outcomes[0]), outcomes[1..])
  }

  /** Whatever the outcomes, the queue is empty once as many attempts as its
      potential have been made. */
  lemma {:induction false} DrainsWithinPotential(q: seq<QueuedMessage>, outcomes: seq<bool>)
    requires RetriesBounded(q) && |outcomes| >= Potential(q)
    ensures Run(q, outcomes) == []
    decreases |outcomes|
  {
    if q != [] {
      PotentialFront(q);
      PotentialDecreases(q, outcomes[0]);
      DrainsWithinPotential(AfterSend(q, outcomes[0]), outcomes[1..]);
    }
  }

  /** A queue of n messages costs at most 4n send attempts in all. */
  lemma {:induction false} PotentialAtMostFourEach(q: seq<QueuedMessage>)
    requires RetriesBounded(q)
    ensures Potential(q) <= (MaxRetries + 1) * |q|
  {
    if q != [] {
      PotentialAtMostFourEach(q[..|q| - 1]);
    }
  }

  /** The send attempts spent on the entry now at position `i` over a run of
      outcomes: the entry moves one place forward each time another message
      leaves the head, and after a failure at the head it restarts from the
      back with one more retry. */
  function Attempts(q: seq<QueuedMessage>, outcomes: seq<bool>, i: nat): nat
    requires i < |q|
    decreases |outcomes|
  {
    if outcomes == [] then 0
    else if i > 0 then Attempts(AfterSend(q, outcomes[0]), outcomes[1..], i - 1)
    else if !outcomes[0] && q[0].retries < MaxRetries then 1 + Attempts(AfterSend(q, outcomes[0]), outcomes[1..], |q| - 1)
    else 1
  }

  /** Whatever the outcomes, the entry at position `i` is tried at most
      `4 - retries` more times; a newly queued message at most four times. */
  lemma {:induction false} AttemptsPerMessage(q: seq<QueuedMessage>, outcomes: seq<bool>, i: nat)
    requires i < |q| && RetriesBounded(q)
    ensures Attempts(q, outcomes, i) <= MaxRetries + 1 - q[i].retries
    decreases |outcomes|
  {
    if outcomes != [] {
      var r := AfterSend(q, outcomes[0]);
      RetriesStayBounded(q, outcomes[0]);
      if i > 0 {
        assert r[i - 1] == q[i];
        AttemptsPerMessage(r, outcomes[1..], i - 1);
      } else if !outcomes[0] && q[0].retries < MaxRetries {
        AttemptsPerMessage(r, outcomes[1..], |q| - 1);
      }
    }
  }

  class KakaoAutomation {
    var isProcessing: bool
    var messageQueue: seq<QueuedMessage>

    /** Retries never pass three, and the flag is only up while the message
        being sent is still at the head of the queue. */
    ghost predicate Valid()
      reads this
    {
      RetriesBounded(messageQueue) && (isProcessing ==> |messageQueue| > 0)
    }

    constructor()
      ensures Valid() && !isProcessing && messageQueue == []
    {
      isProcessing := false;
      messageQueue := [];
    }

    /** `addToQueue`: the message joins the back with no retries; when nothing
        is being sent, sending starts at once. */
    method AddToQueue(phoneNumber: string, message: string)
      requires Valid()
      modifies this
      ensures Valid()
      ensures messageQueue == old(messageQueue) + [QueuedMessage(phoneNumber, message, 0)]
      ensures isProcessing
    {
      messageQueue := messageQueue + [QueuedMessage(phoneNumber, message, 0)];
      if !isProcessing {
        var sending := BeginProcess();
      }
    }

    /** `processQueue` up to the send: nothing happens while a send is under
        way or when the queue is empty; otherwise the flag goes up and the head
        is the message to send. */
    method BeginProcess() returns (sending: Option<QueuedMessage>)
      requires Valid()
      modifies this
      ensures Valid()
      ensures messageQueue == old(messageQueue)
      ensures sending.Some? <==> !old(isProcessing) && |messageQueue| > 0
      ensures sending.Some? ==> sending.value == messageQueue[0]
      ensures isProcessing == (old(isProcessing) || sending.Some?)
    {
      if isProcessing || |messageQueue| == 0 {
        return None;
      }
      isProcessing := true;
      sending := Some(messageQueue[0]);
    }

    /** `processQueue` after the send: the head is removed, or rotated to the
        back with one more retry; the flag goes down, and another round is
        scheduled when messages remain. */
    method FinishProcess(sent: bool) returns (rescheduled: bool)
      requires Valid() && isProcessing
      modifies this
      ensures Valid()
      ensures messageQueue == AfterSend(old(messageQueue), sent)
      ensures !isProcessing
      ensures rescheduled <==> |messageQueue| > 0
    {
      if sent {
        messageQueue := messageQueue[1..];
      } else {
        var currentMessage := messageQueue[0];
        if currentMessage.retries < MaxRetries {
          currentMessage := currentMessage.(retries := currentMessage.retries + 1);
          messageQueue := messageQueue[1..] + [currentMessage];
        } else {
          messageQueue := messageQueue[1..];
        }
      }
      isProcessing := false;
      rescheduled := |messageQueue| > 0;
    }
  }

  /** Holder of the one shared `KakaoAutomation` (the class's static
      `instance` slot). */
  class Registry {
    var instance: KakaoAutomation?

    constructor()
      ensures instance == null
    {
      instance := null;
    }

    /** `getInstance`: creates the automation on first use, and hands out the
        same object ever after. */
    method GetInstance() returns (k: KakaoAutomation)
      modifies this
      ensures old(instance) != null ==> k == old(instance)
      ensures old(instance) == null ==> fresh(k) && k.Valid() && k.messageQueue == [] && !k.isProcessing
      ensures instance == k
    {
      if instance == null {
        instance := new KakaoAutomation();
      }
      k := instance;
    }

    /** Two lookups give the same object. */
    method GetInstanceTwice() returns (first: KakaoAutomation, second: KakaoAutomation)
      modifies this
      ensures first == second
    {
      first := GetInstance();
      second := GetInstance();
    }
  }
}
