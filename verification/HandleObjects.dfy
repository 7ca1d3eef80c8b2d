/** The two handle objects, one call at a time: what converting, cancelling and
    reading do to the slots, the flags and the core session's own atomics. */
module HandleObjects {
  import opened Wrappers

  datatype HandleError = AlreadyMoved | MovedBack | NotAChat | Failed(detail: string)

  datatype CoreState = CoreState(position: nat, cancelled: bool)

  /** The core session: opaque but for the atomics its handles share. */
  class CoreSession {
    var cancelled: bool
    var position: nat

    constructor ()
      ensures !cancelled && position == 0
    {
      cancelled := false;
      position := 0;
    }

    function Now(): CoreState
      reads this
    {
      CoreState(position, cancelled)
    }
  }

  class Session {
    const core: CoreSession
    var inner: Option<CoreSession>
    var moved: bool

    predicate Valid()
      reads this
    {
      (moved <==> inner.None?) && (inner.Some? ==> inner.value == core)
    }

    /** `from_core`. */
    constructor FromCore(core: CoreSession)
      ensures Valid() && this.core == core && inner == Some(core)
    {
      this.core := core;
      inner := Some(core);
      moved := false;
    }
  }

  class ChatSession {
    const core: CoreSession
    var inner: Option<CoreSession>
    var moved: bool

    predicate Valid()
      reads this
    {
      (moved <==> inner.None?) && (inner.Some? ==> inner.value == core)
    }

    constructor Owning(core: CoreSession)
      ensures Valid() && this.core == core && inner == Some(core)
    {
      this.core := core;
      inner := Some(core);
      moved := false;
    }

    /** `from_session`; `valid` is what the core's own validation says. The core goes
        to the new handle, or back to where it was. */
    static method FromSession(session: Session, valid: bool) returns (r: Result<ChatSession, HandleError>)
      requires session.Valid()
      modifies session
      ensures session.Valid()
      ensures r.Ok? <==> old(session.inner).Some? && valid
      ensures r.Ok? ==> fresh(r.value) && r.value.Valid()
      ensures r.Ok? ==> r.value.inner == old(session.inner) && session.inner == None
      ensures r.Err? ==> session.inner == old(session.inner) && session.moved == old(session.moved)
      ensures r.Err? ==> r.error == if old(session.inner).None? then AlreadyMoved else NotAChat
    {
      var taken := session.inner;
      session.inner := None;
      if taken.None? {
        return Err(AlreadyMoved);
      }
      if !valid {
        session.inner := taken;
        return Err(NotAChat);
      }
      session.moved := true;
      var chat := new ChatSession.Owning(taken.value);
      return Ok(chat);
    }

    /** `into_session`: succeeds once, hands the core on with its cancel flag
        cleared, and leaves this handle dead. */
    method IntoSession() returns (r: Result<Session, HandleError>)
      requires Valid()
      modifies this, core
      ensures Valid()
      ensures r.Ok? <==> old(inner).Some?
      ensures r.Ok? ==> fresh(r.value) && r.value.Valid() && r.value.inner == old(inner) && inner == None
      ensures r.Ok? ==> !core.cancelled && core.position == old(core.position)
      ensures r.Err? ==> r.error == AlreadyMoved && inner == None && unchanged(core)
    {
      var taken := inner;
      inner := None;
      if taken.None? {
        return Err(AlreadyMoved);
      }
      moved := true;
      core.cancelled := false;
      var session := new Session.FromCore(taken.value);
      return Ok(session);
    }

    /** `cancel`: reaches the core only while this handle owns it. */
    method Cancel()
      requires Valid()
      modifies core
      ensures core.cancelled == (old(core.cancelled) || inner.Some?)
      ensures core.position == old(core.position)
    {
      if moved {
        return;
      }
      core.cancelled := true;
    }

    method ClearCancel() returns (r: Result<(), HandleError>)
      requires Valid()
      modifies core
      ensures r == (if inner.Some? then Ok(()) else Err(MovedBack))
      ensures core.cancelled == (old(core.cancelled) && inner.None?)
      ensures core.position == old(core.position)
    {
      if moved {
        return Err(MovedBack);
      }
      core.cancelled := false;
      return Ok(());
    }

    method Position() returns (r: Result<nat, HandleError>)
      requires Valid()
      ensures r == (if inner.Some? then Ok(inner.value.position) else Err(MovedBack))
    {
      if moved {
        return Err(MovedBack);
      }
      return Ok(core.position);
    }

    /** `with_chat`: any work on the owned core runs once, with its own result, or not
        at all. */
    method WithChat<R>(work: CoreState -> (CoreState, Result<R, HandleError>)) returns (r: Result<R, HandleError>)
      requires Valid()
      modifies core
      ensures inner.None? ==> r == Err(MovedBack) && unchanged(core)
      ensures inner.Some? ==> (core.Now(), r) == work(old(core.Now()))
    {
      match inner
      case None => return Err(MovedBack);
      case Some(chat) =>
        var (after, result) := work(chat.Now());
        chat.position := after.position;
        chat.cancelled := after.cancelled;
        return result;
    }
  }
}
