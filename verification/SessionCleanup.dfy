/**
 What Aggregate and SelectKeyset leave behind on their connection, when any step may fail
 (internal/adapters/mysql8/aggregate.go, internal/adapters/mysql8/keyset.go).
 */
module SessionCleanup {
  import opened Wrappers
  import opened JsonText
  import KeysetCursor

  // --------------------------------------------------------------- connection

  /** A time zone as the server writes it. */
  type Zone = Bytes

  datatype Statement = SetTimezone(zone: Zone) | SetIsolation | StartTransaction | Commit | Rollback

  /** A step works, or its reply is lost and it may have taken effect on the server all the same. */
  datatype Outcome = Done | Lost(effective: bool)

  /** What happens at each step, and the zone the server stores for the one it is given. */
  datatype Server = Server(outcome: nat -> Outcome, stored: Zone -> Zone)

  const UTC: Zone := Ascii("+00:00")

  /** The server's session behind a connection, and whether the pool will drop the connection. */
  datatype Session = Session(timezone: Zone, inTransaction: bool, rowsOpen: bool, discarded: bool)

  function Executed(s: Session, statement: Statement, server: Server): Session {
    match statement
    case SetTimezone(zone) => s.(timezone := server.stored(zone))
    case SetIsolation => s
    case StartTransaction => s.(inTransaction := true)
    case Commit => s.(inTransaction := false)
    case Rollback => s.(inTransaction := false)
  }

  class Connection {
    const server: Server
    var session: Session
    var clock: nat

    constructor (server: Server, timezone: Zone)
      ensures session == Session(timezone, false, false, false)
    {
      this.server := server;
      session := Session(timezone, false, false, false);
      clock := 0;
    }

    /** The fate of the next step. */
    method Step() returns (outcome: Outcome)
      modifies this`clock
    {
      outcome := server.outcome(clock);
      clock := clock + 1;
    }

    /** A statement without a result; it fails on a dropped connection and beside an open result set. */
    method Exec(statement: Statement) returns (ok: bool)
      modifies this
      ensures ok ==> !old(session).discarded && session == Executed(old(session), statement, server)
      ensures !ok ==> session == old(session) || session == Executed(old(session), statement, server)
    {
      var outcome := Step();
      if session.discarded || session.rowsOpen {
        return false;
      }
      if outcome.Done? || outcome.effective {
        session := Executed(session, statement, server);
      }
      ok := outcome.Done?;
    }

    method ReadTimezone() returns (zone: Option<Zone>)
      modifies this`clock
      ensures zone.Some? ==> !session.discarded && zone.value == session.timezone
    {
      var outcome := Step();
      zone := if outcome.Done? && !session.discarded then Some(session.timezone) else None;
    }

    /** Reading metadata or a plan, checking and compiling: nothing that outlives the step. */
    method Inspect() returns (ok: bool)
      modifies this`clock
    {
      var outcome := Step();
      ok := outcome.Done? && !session.discarded;
    }

    method SetDeadline() returns (ok: bool)
      modifies this`clock
    {
      var outcome := Step();
      ok := outcome.Done? && !session.discarded;
    }

    /** Opens a result set. */
    method Query() returns (ok: bool)
      modifies this
      ensures ok ==> session == old(session).(rowsOpen := true) && !session.discarded
      ensures !ok ==> session == old(session)
    {
      var outcome := Step();
      ok := outcome.Done? && !session.discarded && !session.rowsOpen;
      if ok {
        session := session.(rowsOpen := true);
      }
    }

    /** Draining may fail, but afterwards the result set is closed. */
    method CloseRows() returns (ok: bool)
      modifies this
      ensures session == old(session).(rowsOpen := false)
    {
      var outcome := Step();
      session := session.(rowsOpen := false);
      ok := outcome.Done?;
    }

    /** Closing the socket; a failure leaves everything as it was. */
    method Abort() returns (ok: bool)
      modifies this
      ensures session == if ok then old(session).(rowsOpen := false, discarded := true) else old(session)
    {
      var outcome := Step();
      ok := outcome.Done?;
      if ok {
        session := session.(rowsOpen := false, discarded := true);
      }
    }

    /** discardSQLConnection. */
    method Discard()
      modifies this`session
      ensures session == old(session).(discarded := true)
    {
      session := session.(discarded := true);
    }

    // ------------------------------------------------------------- session

    /** setAggregateUTCSession: a sound zone to restore, or None; after None the connection is dropped or untouched. */
    method SetUtcSession() returns (original: Option<Zone>)
      modifies this
      ensures session.inTransaction == old(session).inTransaction && session.rowsOpen == old(session).rowsOpen
      ensures original.Some? ==> !session.discarded && original.value == old(session).timezone && session.timezone == UTC
      ensures original == None ==> session.discarded || session == old(session)
      ensures original.Some? ==>
                && 1 <= |original.value| <= 64 && KeysetCursor.ValidUtf8(original.value)
                && 0 !in original.value && 10 !in original.value && 13 !in original.value
    {
      var zone := ReadTimezone();
      if zone == None {
        return None;
      }
      if !PlausibleZone(zone.value) {
        Discard();
        return None;
      }
      var set_ := Exec(SetTimezone(UTC));
      if !set_ {
        Discard();
        return None;
      }
      var verified := ReadTimezone();
      if verified == None || verified.value != UTC {
        Discard();
        return None;
      }
      original := zone;
    }

    /** restoreAggregateSessionTimezone: the zone is verified, or the connection is dropped. */
    method RestoreTimezone(original: Zone) returns (ok: bool)
      modifies this
      ensures session.inTransaction == old(session).inTransaction && session.rowsOpen == old(session).rowsOpen
      ensures if ok then !session.discarded && session.timezone == original else session.discarded
      ensures old(session).discarded ==> session.discarded
    {
      ok := SetDeadline();
      if !ok {
        Discard();
        return;
      }
      ok := Exec(SetTimezone(original));
      if !ok {
        Discard();
        return;
      }
      var verified := ReadTimezone();
      ok := verified.Some? && verified.value == original;
      if !ok {
        Discard();
      }
    }

    /** startAggregateTransaction: a failure leaves no transaction, or drops the connection. */
    method Start() returns (ok: bool)
      modifies this
      ensures session.timezone == old(session).timezone && session.rowsOpen == old(session).rowsOpen
      ensures ok ==> !session.discarded && session.inTransaction
      ensures !ok ==> session.discarded || session == old(session)
    {
      ok := Exec(SetIsolation);
      if !ok {
        return;
      }
      ok := Exec(StartTransaction);
      if !ok {
        Discard();
      }
    }

    /** finalizeAggregateTransaction: the transaction is over, or the connection is dropped. */
    method Finalize(statement: Statement) returns (ok: bool)
      requires statement.Commit? || statement.Rollback?
      modifies this
      ensures session.timezone == old(session).timezone && session.rowsOpen == old(session).rowsOpen
      ensures if ok then !session.discarded && !session.inTransaction else session.discarded
      ensures old(session).discarded ==> session.discarded
    {
      ok := SetDeadline();
      if ok {
        ok := Exec(statement);
      }
      if !ok {
        Discard();
      }
    }
  }

  const UNPRINTABLE: set<byte> := {0, 10, 13}

  /** The checks of a zone before it is trusted as a restore target. */
  predicate PlausibleZone(zone: Zone) {
    zone != [] && |zone| <= 64 && KeysetCursor.ValidUtf8(zone) && forall i :: 0 <= i < |zone| ==> zone[i] !in UNPRINTABLE
  }

  // ----------------------------------------------------------------- requests

  /** What the deferred functions will look at. */
  datatype Deferred = Deferred(deadline: bool, original: Option<Zone>, transactionActive: bool, rows: bool)

  /** The connection may go back to the pool: it is dropped there, or as it was handed out. */
  predicate Returnable(s: Session, home: Zone) {
    s.discarded || (s.timezone == home && !s.inTransaction && !s.rowsOpen)
  }

  /** A connection as the pool hands it out. */
  predicate Fresh(s: Session, home: Zone) {
    s == Session(home, false, false, false)
  }

  /** What the flags say about the session whenever a request leaves its main path. */
  predicate Pending(s: Session, home: Zone, d: Deferred) {
    s.discarded
    || (&& (if d.original.Some? then d.original.value == home else s.timezone == home)
        && (s.inTransaction ==> d.transactionActive) && (s.rowsOpen ==> d.rows || d.original.Some?))
  }

  /** The deferred functions, last registered first. */
  method RunDeferred(c: Connection, home: Zone, succeeded: bool, d: Deferred) returns (ok: bool)
    requires Pending(c.session, home, d)
    requires succeeded && !c.session.discarded ==> !d.transactionActive && (c.session.rowsOpen ==> d.rows)
    modifies c
    ensures Returnable(c.session, home) && (ok ==> succeeded)
    ensures d.original == None && !d.transactionActive ==>
              ok == succeeded && c.session == old(c.session.(rowsOpen := if d.rows then false else c.session.rowsOpen))
  {
    ok := succeeded;
    if d.rows {
      var closed := c.CloseRows();
    }
    if d.transactionActive {
      var rolledBack := c.Finalize(Rollback);
    }
    if d.original.Some? {
      if !ok {
        c.Discard();
      } else {
        ok := c.RestoreTimezone(d.original.value);
      }
    }
    if d.deadline {
      var cleared := c.SetDeadline();
    }
  }

  /** Aggregate's main path: where it stops, and what is then left to the deferred functions. */
  method AggregatePath(c: Connection, home: Zone, needsUtc: bool) returns (ok: bool, d: Deferred)
    requires Fresh(c.session, home)
    modifies c
    ensures Pending(c.session, home, d)
    ensures ok ==> !d.transactionActive && d.original == None && Fresh(c.session, home)
  {
    d := Deferred(false, None, false, false);
    ok := c.SetDeadline();
    if !ok {
      return;
    }
    d := d.(deadline := true);
    ok := c.Inspect();
    if !ok {
      return;
    }
    if needsUtc {
      var original := c.SetUtcSession();
      if original == None {
        return false, d;
      }
      d := d.(original := original);
    }
    ok := c.Start();
    if !ok {
      return;
    }
    d := d.(transactionActive := true);
    ok := c.Inspect();
    if !ok {
      return;
    }
    ok := c.Query();
    if !ok {
      return;
    }
    d := d.(rows := true);
    ok := c.Inspect();
    if !ok {
      return;
    }
    ok := c.CloseRows();
    if !ok {
      return;
    }
    ok := c.Finalize(Commit);
    if !ok {
      return;
    }
    d := d.(transactionActive := false);
    if needsUtc {
      ok := c.RestoreTimezone(d.original.value);
      if !ok {
        return;
      }
      d := d.(original := None);
    }
    ok := c.SetDeadline();
    if !ok {
      return;
    }
    d := d.(deadline := false);
  }

  /** A failed aggregate leaves a returnable connection; a successful one leaves it as it was and in the pool. */
  method Aggregate(c: Connection, home: Zone, needsUtc: bool) returns (ok: bool)
    requires Fresh(c.session, home)
    modifies c
    ensures Returnable(c.session, home)
    ensures ok ==> Fresh(c.session, home)
  {
    var done, d := AggregatePath(c, home, needsUtc);
    ok := RunDeferred(c, home, done, d);
  }

  /** SelectKeyset's main path; `stops` says whether the collector left rows unread. */
  method KeysetPath(c: Connection, home: Zone, stops: bool) returns (ok: bool, d: Deferred)
    requires Fresh(c.session, home)
    modifies c
    ensures Pending(c.session, home, d)
    ensures ok ==> !d.transactionActive && d.original == None
    ensures ok ==> if stops then c.session.discarded else Fresh(c.session, home)
  {
    d := Deferred(false, None, false, false);
    ok := c.SetDeadline();
    if !ok {
      return;
    }
    d := d.(deadline := true);
    ok := c.Inspect();
    if !ok {
      return;
    }
    var original := c.SetUtcSession();
    if original == None {
      return false, d;
    }
    d := d.(original := original);
    ok := c.Start();
    if !ok {
      return;
    }
    d := d.(transactionActive := true);
    ok := c.Inspect();
    if !ok {
      return;
    }
    ok := c.Query();
    if !ok {
      return;
    }
    var collected := c.Inspect();
    if !collected || stops {
      var aborted := c.Abort();
      if !aborted {
        // The session was switched to UTC, so a deferred function will drop the connection.
        return false, d;
      }
      d := Deferred(false, None, false, false);
      return collected, d;
    }
    ok := c.CloseRows();
    if !ok {
      return;
    }
    ok := c.Finalize(Commit);
    if !ok {
      return;
    }
    d := d.(transactionActive := false);
    ok := c.RestoreTimezone(d.original.value);
    if !ok {
      return;
    }
    d := d.(original := None);
    ok := c.SetDeadline();
    if !ok {
      return;
    }
    d := d.(deadline := false);
  }

  /** A page that left rows unread gives its connection up; otherwise as for an aggregate. */
  method SelectKeyset(c: Connection, home: Zone, stops: bool) returns (ok: bool)
    requires Fresh(c.session, home)
    modifies c
    ensures Returnable(c.session, home)
    ensures ok ==> if stops then c.session.discarded else Fresh(c.session, home)
  {
    var done, d := KeysetPath(c, home, stops);
    ok := RunDeferred(c, home, done, d);
  }

  // --------------------------------------------------------------------- runs

  datatype Request = AggregateRequest(connection: nat, needsUtc: bool) | KeysetRequest(connection: nat, stops: bool)

  /** Distinct connections, each dropped or as it was when it entered the pool. */
  ghost predicate PoolClean(pool: seq<Connection>, homes: seq<Zone>)
    reads pool
  {
    && |homes| == |pool|
    && (forall i, j :: 0 <= i < j < |pool| ==> pool[i] != pool[j])
    && forall i :: 0 <= i < |pool| ==> pool[i].session.discarded || Fresh(pool[i].session, homes[i])
  }

  /**
   Any number of requests, on any connections of the pool, with any steps failing: whenever a request
   ends, every connection is dropped or has its own time zone, no open transaction and no unread rows.
   */
  method ServeAll(pool: seq<Connection>, homes: seq<Zone>, requests: seq<Request>)
    requires PoolClean(pool, homes)
    modifies pool
    ensures PoolClean(pool, homes)
  {
    for i := 0 to |requests|
      invariant PoolClean(pool, homes)
    {
      var at := requests[i].connection;
      if at < |pool| && !pool[at].session.discarded {
        Serve(pool, homes, at, requests[i]);
      }
    }
  }

  /** One request on a connection the pool hands out; the others are not touched. */
  method Serve(pool: seq<Connection>, homes: seq<Zone>, at: nat, request: Request)
    requires PoolClean(pool, homes) && at < |pool| && !pool[at].session.discarded
    modifies pool[at]
    ensures PoolClean(pool, homes)
  {
    match request {
      case AggregateRequest(_, needsUtc) =>
        var ok := Aggregate(pool[at], homes[at], needsUtc);
      case KeysetRequest(_, stops) =>
        var ok := SelectKeyset(pool[at], homes[at], stops);
    }
    ReturnedToPool(pool[at].session, homes[at]);
  }

  lemma ReturnedToPool(s: Session, home: Zone)
    requires Returnable(s, home)
    ensures s.discarded || Fresh(s, home)
  {
  }
}
