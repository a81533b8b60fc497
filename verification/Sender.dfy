/**
 The sending half of Session as an object. Each lock region and each access to the
 atomic flag is a method that takes exactly one step of SendProtocol; PostSend,
 RegisterSend and SendCompleted are composed of them as in the source. What holds
 when other threads step in between is proved about the steps in SendProtocol; the
 contracts here say what each call does when left alone.
 */
module Sender {
  import opened Bytes
  import opened SendProtocol

  class SessionSender {
    var m_sendQueue: seq<Buffer>
    var m_isSending: bool
    var m_wsaBuf: Buffer
    /** The protocol state these fields are part of. */
    ghost var st: State

    ghost predicate Valid()
      reads this
    {
      && st.queue == m_sendQueue && st.isSending == m_isSending && st.wsaBuf == m_wsaBuf
      && Inv(st)
    }

    constructor ()
      ensures Valid() && st == Fresh
    {
      m_sendQueue, m_isSending, m_wsaBuf := [], false, [];
      st := Fresh;
      new;
      FreshInv(st);
    }

    // -------------------------------------------------------------------
    // The atomic steps
    // -------------------------------------------------------------------

    method Push(data: Buffer)
      requires Valid() && Enabled(st, Action.Push(data))
      modifies this
      ensures Valid() && st == Apply(old(st), Action.Push(data))
    {
      m_sendQueue := m_sendQueue + [data];
      StepKeepsInv(st, Action.Push(data));
      st := Apply(st, Action.Push(data));
    }

    /** m_isSending.exchange(true) */
    method ExchangeFlag() returns (was: bool)
      requires Valid() && Enabled(st, Exchange)
      modifies this
      ensures Valid() && st == Apply(old(st), Exchange) && was == old(m_isSending)
    {
      was := m_isSending;
      m_isSending := true;
      StepKeepsInv(st, Exchange);
      st := Apply(st, Exchange);
    }

    method LockAndLook() returns (empty: bool)
      requires Valid() && Enabled(st, Lock)
      modifies this
      ensures Valid() && st == Apply(old(st), Lock) && empty == (m_sendQueue == [])
    {
      empty := m_sendQueue == [];
      StepKeepsInv(st, Lock);
      st := Apply(st, Lock);
    }

    /** m_isSending = false, on the empty queue or after a failed WSASend. */
    method ClearFlag(afterFailure: bool)
      requires Valid() && Enabled(st, if afterFailure then ClearFailed else ClearEmpty)
      modifies this
      ensures Valid() && st == Apply(old(st), if afterFailure then ClearFailed else ClearEmpty)
    {
      m_isSending := false;
      StepKeepsInv(st, if afterFailure then ClearFailed else ClearEmpty);
      st := Apply(st, if afterFailure then ClearFailed else ClearEmpty);
    }

    /** Points the overlapped at the front and calls WSASend; false is an error other than WSA_IO_PENDING. */
    method CallWsaSend(ok: bool)
      requires Valid() && Enabled(st, Transmit(ok))
      modifies this
      ensures Valid() && st == Apply(old(st), Transmit(ok)) && m_wsaBuf == old(m_sendQueue[0])
    {
      StepKeepsInv(st, Transmit(ok));
      m_wsaBuf := m_sendQueue[0];
      st := Apply(st, Transmit(ok));
    }

    method Release()
      requires Valid() && Enabled(st, Unlock)
      modifies this
      ensures Valid() && st == Apply(old(st), Unlock)
    {
      StepKeepsInv(st, Unlock);
      st := Apply(st, Unlock);
    }

    method PopFront()
      requires Valid() && Enabled(st, Pop)
      modifies this
      ensures Valid() && st == Apply(old(st), Pop)
    {
      StepKeepsInv(st, Pop);
      m_sendQueue := m_sendQueue[1..];
      st := Apply(st, Pop);
    }

    // -------------------------------------------------------------------
    // The methods of Session
    // -------------------------------------------------------------------

    /**
     The token's holder sends the front of the queue, or gives the token up because there is
     nothing to send or WSASend does not accept it.
     */
    method RegisterSend(accepted: bool)
      requires Valid() && st.threads.entering > 0 && !st.locked
      modifies this
      ensures Valid() && !st.locked && m_sendQueue == old(m_sendQueue)
      ensures st.posted == old(st.posted) && st.completed == old(st.completed)
      ensures st.threads == old(st.threads).(entering := old(st.threads.entering) - 1)
      ensures m_isSending <==> m_sendQueue != [] && accepted
      ensures m_isSending <==> st.socket == InFlight
      ensures m_sendQueue != [] ==> m_wsaBuf == m_sendQueue[0] && st.lastAttemptFailed == !accepted
      ensures st.transmitted == old(st.transmitted) + (if m_isSending then [m_sendQueue[0]] else [])
    {
      ghost var s := st;
      var empty := LockAndLook();
      if empty {
        ClearFlag(false);
        Release();
        FoundEmpty(s);
        return;
      }
      CallWsaSend(accepted);
      if !accepted {
        ClearFlag(true);
        Release();
        FailedToSend(s);
        return;
      }
      Release();
      SentFront(s);
    }

    /** Queues a buffer; if nobody is sending, the oldest waiting buffer goes out first. */
    method PostSend(data: Buffer, accepted: bool)
      requires Valid() && !st.locked
      modifies this
      ensures Valid() && !st.locked && st.threads == old(st.threads)
      ensures m_sendQueue == old(m_sendQueue) + [data] && st.posted == old(st.posted) + [data]
      ensures st.completed == old(st.completed)
      ensures old(m_isSending) ==> m_isSending && st.transmitted == old(st.transmitted)
      ensures !old(m_isSending) ==>
        && m_isSending == accepted && m_wsaBuf == m_sendQueue[0] && st.lastAttemptFailed == !accepted
        && st.transmitted == old(st.transmitted) + (if accepted then [m_sendQueue[0]] else [])
    {
      Push(data);
      var was := ExchangeFlag();
      if !was {
        RegisterSend(accepted);
      }
    }

    /** The front has been sent: it leaves the queue, and the next one goes out. */
    method SendCompleted(accepted: bool)
      requires Valid() && st.threads.completing > 0 && !st.locked
      modifies this
      ensures Valid() && !st.locked
      ensures old(m_sendQueue) != [] && m_sendQueue == old(m_sendQueue)[1..]
      ensures st.completed == old(st.completed) + [old(m_sendQueue)[0]] && st.posted == old(st.posted)
      ensures m_isSending <==> m_sendQueue != [] && accepted
      ensures m_sendQueue != [] ==> m_wsaBuf == m_sendQueue[0] && st.lastAttemptFailed == !accepted
      ensures st.transmitted == old(st.transmitted) + (if m_isSending then [m_sendQueue[0]] else [])
    {
      PopFront();
      RegisterSend(accepted);
    }
  }

  // ---------------------------------------------------------------------
  // The three ways through RegisterSend
  // ---------------------------------------------------------------------

  /** What each of them leaves of the thread that came in. */
  function Left(t: Threads): Threads
    requires t.entering > 0
  {
    t.(entering := t.entering - 1)
  }

  lemma FoundEmpty(s: State)
    requires s.threads.entering > 0 && !s.locked && s.queue == []
    ensures Apply(Apply(Apply(s, Lock), ClearEmpty), Unlock) == s.(isSending := false, threads := Left(s.threads))
  {
  }

  lemma SentFront(s: State)
    requires s.threads.entering > 0 && !s.locked && s.queue != [] && s.socket == Quiet
    ensures Apply(Apply(Apply(s, Lock), Transmit(true)), Unlock)
         == s.(wsaBuf := s.queue[0], socket := InFlight, transmitted := s.transmitted + [s.queue[0]],
               lastAttemptFailed := false, threads := Left(s.threads))
  {
  }

  lemma FailedToSend(s: State)
    requires s.threads.entering > 0 && !s.locked && s.queue != [] && s.socket == Quiet
    ensures Apply(Apply(Apply(Apply(s, Lock), Transmit(false)), ClearFailed), Unlock)
         == s.(isSending := false, wsaBuf := s.queue[0], lastAttemptFailed := true, threads := Left(s.threads))
  {
  }
}
