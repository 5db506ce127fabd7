/**
 * The session lifecycle of the booking service: a booking is inserted as `confirmed`,
 * started at once as `in_progress` with an optional auto-completion instant, gated for
 * chat at read time, listed per party, and completed either by the expert (through a
 * stored procedure whose inside is not visible) or by the periodic expiry sweep.
 *
 * The `bookings` and `conversations` tables are sequences held by `SessionService`;
 * time is an integer count of milliseconds; a failing database round trip is an input.
 */
module Sessions {
  import opened Wrappers
  import opened Seqs

  datatype Status = Pending | Confirmed | InProgress | Completed | Cancelled

  /** A row of the `bookings` table. `id` stands for the uuid the database assigns. */
  datatype Booking = Booking(
    id: nat,
    userId: string,
    expertId: string,
    serviceId: string,
    pricePaid: real,
    status: Status,
    chatEnabled: bool,
    autoCompletionDate: Option<int>,
    createdAt: int)

  /** A row of the `conversations` table. */
  datatype Conversation = Conversation(userId: string, expertId: string, bookingId: nat, status: string)

  /** What the caller asks to book. */
  datatype BookingData = BookingData(userId: string, expertId: string, serviceId: string, pricePaid: real)

  /** What a successful booking reports back. */
  datatype SessionInfo = SessionInfo(
    bookingId: nat,
    sessionStartedAt: int,
    chatEnabled: bool,
    autoCompletionDate: Option<int>,
    status: Status)

  /** The error a round trip raises; `createBooking` rethrows it. */
  datatype DbError = InsertError | ServiceLookupError | UpdateError

  datatype CreateResult = Created(info: SessionInfo) | Failed(error: DbError)

  /** Which database round trip of `createBooking`, if any, fails. */
  datatype Fault = NoFault | FailInsert | FailServiceLookup | FailUpdate | FailConversationInsert

  /** The reply of the `complete_expert_session` procedure. */
  datatype RpcReply = RpcData(completed: bool) | RpcFailed

  const DayMs: int := 24 * 60 * 60 * 1000

  /** When a session of the given service type completes by itself: one week or thirty
      days after `now` for the fixed-duration types, never for per-session types. */
  function AutoCompletionDate(serviceType: string, now: int): (r: Option<int>)
    ensures r.Some? <==> serviceType == "1_week" || serviceType == "1_month"
    ensures serviceType == "1_week" ==> r == Some(now + 604_800_000)
    ensures serviceType == "1_month" ==> r == Some(now + 2_592_000_000)
  {
    if serviceType == "1_week" then Some(now + 7 * DayMs)
    else if serviceType == "1_month" then Some(now + 30 * DayMs)
    else None
  }

  /** The row the first insert writes: `confirmed`, chat enabled by the column default. */
  function InsertedBooking(id: nat, data: BookingData, createdAt: int): Booking {
    Booking(id, data.userId, data.expertId, data.serviceId, data.pricePaid,
            Confirmed, true, None, createdAt)
  }

  /** The booking-lookup filter of the chat gate and of the listings. */
  predicate IsChatBooking(b: Booking, userId: string, expertId: string) {
    b.userId == userId && b.expertId == expertId && b.status == InProgress && b.chatEnabled
  }

  /** The read-time expiry check of the chat gate: denied only strictly after the date. */
  predicate NotExpired(b: Booking, now: int) {
    b.autoCompletionDate.None? || now <= b.autoCompletionDate.value
  }

  /** `canUserChatWithExpert`. The lookup uses `.single()`, which errors unless exactly
      one row matches; any error denies. So chat is allowed exactly when the lookup
      succeeds, exactly one in-progress chat-enabled booking links the pair, and that
      booking has not passed its auto-completion date. */
  function CanUserChatWithExpert(bookings: seq<Booking>, userId: string, expertId: string,
                                 now: int, lookupFails: bool): (r: bool)
    ensures r <==> !lookupFails
                   && exists i :: OnlyAt(bookings, (b: Booking) => IsChatBooking(b, userId, expertId), i)
                                  && NotExpired(bookings[i], now)
  {
    var p := (b: Booking) => IsChatBooking(b, userId, expertId);
    var found := Filter(bookings, p);
    FilterSingle(bookings, p);
    !lookupFails && |found| == 1 && NotExpired(found[0], now)
  }

  /** `completeSession`: the procedure's own answer, or `false` when the call fails. */
  function CompleteSession(bookingId: nat, expertNotes: Option<string>, reply: RpcReply): (r: bool)
    ensures r <==> reply == RpcData(true)
  {
    match reply
    case RpcData(completed) => completed
    case RpcFailed => false
  }

  /** `getUserActiveSessions`: the user's in-progress chat-enabled bookings, in table
      order; empty when the query fails. */
  function UserActiveSessions(bookings: seq<Booking>, userId: string, queryFails: bool): (r: seq<Booking>)
    ensures queryFails ==> r == []
    ensures forall i :: 0 <= i < |r| ==>
      r[i] in bookings && r[i].userId == userId && r[i].status == InProgress && r[i].chatEnabled
    ensures !queryFails ==> forall i :: (0 <= i < |bookings| && bookings[i].userId == userId
      && bookings[i].status == InProgress && bookings[i].chatEnabled) ==> bookings[i] in r
  {
    if queryFails then []
    else
      var p := (b: Booking) => b.userId == userId && b.status == InProgress && b.chatEnabled;
      FilterKeeps(bookings, p);
      Filter(bookings, p)
  }

  /** `getExpertActiveSessions`: the same listing for the expert's side. */
  function ExpertActiveSessions(bookings: seq<Booking>, expertId: string, queryFails: bool): (r: seq<Booking>)
    ensures queryFails ==> r == []
    ensures forall i :: 0 <= i < |r| ==>
      r[i] in bookings && r[i].expertId == expertId && r[i].status == InProgress && r[i].chatEnabled
    ensures !queryFails ==> forall i :: (0 <= i < |bookings| && bookings[i].expertId == expertId
      && bookings[i].status == InProgress && bookings[i].chatEnabled) ==> bookings[i] in r
  {
    if queryFails then []
    else
      var p := (b: Booking) => b.expertId == expertId && b.status == InProgress && b.chatEnabled;
      FilterKeeps(bookings, p);
      Filter(bookings, p)
  }

  /** The sweep's row filter: in progress, with a date, and the date not after `now`. */
  predicate IsExpired(b: Booking, now: int) {
    b.status == InProgress && b.autoCompletionDate.Some? && b.autoCompletionDate.value <= now
  }

  /** The bulk update of `checkAndCompleteExpiredSessions` applied to the whole table:
      expired rows become `completed` with chat disabled, every other row is untouched. */
  function Sweep(bookings: seq<Booking>, now: int): (r: seq<Booking>)
    ensures |r| == |bookings|
    ensures forall i :: 0 <= i < |r| ==>
      if IsExpired(bookings[i], now)
      then r[i] == bookings[i].(status := Completed, chatEnabled := false)
      else r[i] == bookings[i]
    decreases |bookings|
  {
    if bookings == [] then []
    else
      var b := bookings[0];
      [if IsExpired(b, now) then b.(status := Completed, chatEnabled := false) else b]
        + Sweep(bookings[1..], now)
  }

  /** A second sweep finds nothing to do, at the same instant or any earlier one; in
      particular it reports a count of zero. */
  lemma SweepIdempotent(bookings: seq<Booking>, now: int, at: int)
    requires at <= now
    ensures Count(Sweep(bookings, now), (b: Booking) => IsExpired(b, at)) == 0
    ensures Sweep(Sweep(bookings, now), at) == Sweep(bookings, now)
  {
    var s := Sweep(bookings, now);
    forall i | 0 <= i < |s| ensures !IsExpired(s[i], at) {
      if IsExpired(bookings[i], now) {
        assert s[i].status == Completed;
      }
    }
  }

  /** After a sweep no booking is left in progress, chat-enabled and past its date. */
  lemma SweepLeavesNoStaleChat(bookings: seq<Booking>, now: int, i: int)
    requires 0 <= i < |bookings|
    ensures var b := Sweep(bookings, now)[i];
      b.status == InProgress && b.autoCompletionDate.Some? ==> now < b.autoCompletionDate.value
  {
  }

  /** The sweep never creates a chat booking: a row it returns that passes the chat
      lookup passed it before. */
  lemma SweepShrinksChat(bookings: seq<Booking>, now: int, userId: string, expertId: string)
    ensures forall i :: (0 <= i < |bookings| && IsChatBooking(Sweep(bookings, now)[i], userId, expertId)
                         ==> IsChatBooking(bookings[i], userId, expertId) && !IsExpired(bookings[i], now))
  {
  }

  /** The boundary between the gate and the sweep. When the pair's only chat booking is
      due exactly at `now`, the gate still allows chat (it denies only strictly after the
      date), but the sweep at `now` completes the booking, after which the gate denies. */
  lemma {:induction false} GateAllowsWhatSweepCompletes(bookings: seq<Booking>, userId: string,
                                                        expertId: string, i: int, now: int)
    requires OnlyAt(bookings, (b: Booking) => IsChatBooking(b, userId, expertId), i)
    requires bookings[i].autoCompletionDate == Some(now)
    ensures CanUserChatWithExpert(bookings, userId, expertId, now, false)
    ensures IsExpired(bookings[i], now)
    ensures !CanUserChatWithExpert(Sweep(bookings, now), userId, expertId, now, false)
  {
    var p := (b: Booking) => IsChatBooking(b, userId, expertId);
    var s := Sweep(bookings, now);
    assert NotExpired(bookings[i], now);
    SweepShrinksChat(bookings, now, userId, expertId);
    forall j | 0 <= j < |s| ensures !p(s[j]) {
    }
  }

  /** The gate and the sweep disagree only at the boundary instant: a chat booking with a
      date is both allowed by the gate and completed by the sweep exactly when its date
      equals `now`. */
  lemma GateSweepOverlap(b: Booking, now: int)
    requires b.status == InProgress && b.chatEnabled && b.autoCompletionDate.Some?
    ensures (NotExpired(b, now) && IsExpired(b, now)) <==> b.autoCompletionDate.value == now
    ensures NotExpired(b, now) || IsExpired(b, now)
  {
  }

  /** A freshly started booking opens chat for its pair whenever the pair had no other
      chat booking and its date, if any, has not passed. */
  lemma {:induction false} ChatAfterBooking(bookings: seq<Booking>, b: Booking, now: int)
    requires forall j :: 0 <= j < |bookings| ==> !IsChatBooking(bookings[j], b.userId, b.expertId)
    requires b.status == InProgress && b.chatEnabled && NotExpired(b, now)
    ensures CanUserChatWithExpert(bookings + [b], b.userId, b.expertId, now, false)
  {
    var p := (x: Booking) => IsChatBooking(x, b.userId, b.expertId);
    var all := bookings + [b];
    assert forall j :: 0 <= j < |bookings| ==> all[j] == bookings[j];
    assert OnlyAt(all, p, |bookings|);
  }

  /** The ids of the booking rows. */
  ghost function Ids(bookings: seq<Booking>): set<nat> {
    set i | 0 <= i < |bookings| :: bookings[i].id
  }

  /** Every conversation refers to a booking of `bookings`. */
  ghost predicate Linked(conversations: seq<Conversation>, bookings: seq<Booking>) {
    forall k :: 0 <= k < |conversations| ==> conversations[k].bookingId in Ids(bookings)
  }

  /** Growing the table or rewriting rows without touching their ids keeps conversations linked. */
  lemma StillLinked(conversations: seq<Conversation>, bookings: seq<Booking>, grown: seq<Booking>)
    requires Linked(conversations, bookings)
    requires |bookings| <= |grown|
    requires forall i :: 0 <= i < |bookings| ==> grown[i].id == bookings[i].id
    ensures Linked(conversations, grown)
  {
    assert Ids(bookings) <= Ids(grown) by {
      forall x | x in Ids(bookings) ensures x in Ids(grown) {
        var i :| 0 <= i < |bookings| && bookings[i].id == x;
        assert grown[i].id == x;
      }
    }
  }

  /** Booking ids are distinct and below the next id to issue; a completed booking never has chat. */
  ghost predicate RowsValid(bookings: seq<Booking>, nextId: nat) {
    && (forall i :: 0 <= i < |bookings| ==> bookings[i].id < nextId)
    && (forall i, j :: 0 <= i < j < |bookings| ==> bookings[i].id != bookings[j].id)
    && (forall i :: 0 <= i < |bookings| && bookings[i].status == Completed ==> !bookings[i].chatEnabled)
  }

  /** The sweep keeps every id and completes rows only with chat disabled. */
  lemma SweepKeepsRows(bookings: seq<Booking>, now: int, nextId: nat)
    requires RowsValid(bookings, nextId)
    ensures RowsValid(Sweep(bookings, now), nextId)
    ensures forall i :: 0 <= i < |bookings| ==> Sweep(bookings, now)[i].id == bookings[i].id
  {
  }

  /** The booking tables and the read-only `expert_services` type column. */
  class SessionService {
    var bookings: seq<Booking>
    var conversations: seq<Conversation>
    /** `expert_services.id` to `service_type`. */
    var serviceTypes: map<string, string>
    /** Where the database's id generator stands. */
    var nextId: nat

    /** Booking ids are distinct and already issued; a completed booking never has chat;
        every conversation refers to an existing booking. */
    ghost predicate Valid()
      reads this
    {
      RowsValid(bookings, nextId) && Linked(conversations, bookings)
    }

    constructor (serviceTypes: map<string, string>)
      ensures Valid()
      ensures this.bookings == [] && this.conversations == [] && this.serviceTypes == serviceTypes
    {
      this.bookings := [];
      this.conversations := [];
      this.serviceTypes := serviceTypes;
      this.nextId := 0;
    }

    /** `createBooking`. The steps run in order and the first failing one stops the rest
        with its error, leaving the earlier writes in place; the conversation insert is
        not checked, so its failure only means no conversation row. `createdAt` is the
        database's clock at the insert, `now` the caller's clock. */
    method CreateBooking(data: BookingData, createdAt: int, now: int, fault: Fault)
      returns (result: CreateResult)
      requires Valid()
      modifies this
      ensures Valid()
      ensures serviceTypes == old(serviceTypes)
      ensures fault == FailInsert ==>
        result == Failed(InsertError) && bookings == old(bookings)
        && conversations == old(conversations) && nextId == old(nextId)
      ensures fault != FailInsert ==> nextId == old(nextId) + 1
      ensures fault != FailInsert && (fault == FailServiceLookup || data.serviceId !in serviceTypes) ==>
        result == Failed(ServiceLookupError)
        && bookings == old(bookings) + [InsertedBooking(old(nextId), data, createdAt)]
        && conversations == old(conversations)
      ensures fault == FailUpdate && data.serviceId in serviceTypes ==>
        result == Failed(UpdateError)
        && bookings == old(bookings) + [InsertedBooking(old(nextId), data, createdAt)]
        && conversations == old(conversations)
      ensures (fault == NoFault || fault == FailConversationInsert) && data.serviceId in serviceTypes ==>
        var date := AutoCompletionDate(serviceTypes[data.serviceId], now);
        && result == Created(SessionInfo(old(nextId), createdAt, true, date, InProgress))
        && bookings == old(bookings)
             + [InsertedBooking(old(nextId), data, createdAt).(status := InProgress, autoCompletionDate := date)]
        && conversations == old(conversations)
             + (if fault == NoFault
                then [Conversation(data.userId, data.expertId, old(nextId), "active")]
                else [])
    {
      if fault == FailInsert {
        return Failed(InsertError);
      }
      // 1. insert the booking as confirmed
      var id := nextId;
      nextId := nextId + 1;
      StillLinked(conversations, bookings, bookings + [InsertedBooking(id, data, createdAt)]);
      bookings := bookings + [InsertedBooking(id, data, createdAt)];
      var last := |bookings| - 1;
      // 2. look up the service type
      if fault == FailServiceLookup || data.serviceId !in serviceTypes {
        return Failed(ServiceLookupError);
      }
      // 3. compute the auto-completion date
      var date := AutoCompletionDate(serviceTypes[data.serviceId], now);
      // 4. start the session
      if fault == FailUpdate {
        return Failed(UpdateError);
      }
      var started := bookings[last].(status := InProgress, autoCompletionDate := date);
      StillLinked(conversations, bookings, bookings[last := started]);
      bookings := bookings[last := started];
      // 5. open the conversation; its error is not checked
      if fault != FailConversationInsert {
        var c := Conversation(data.userId, data.expertId, id, "active");
        assert c.bookingId in Ids(bookings) by { assert bookings[last].id == id; }
        conversations := conversations + [c];
      }
      result := Created(SessionInfo(id, started.createdAt, started.chatEnabled,
                                    started.autoCompletionDate, started.status));
    }

    /** `checkAndCompleteExpiredSessions`: the bulk update, reporting how many rows it
        changed; on an error nothing changes and the count is zero. */
    method CheckAndCompleteExpiredSessions(now: int, fails: bool) returns (count: nat)
      requires Valid()
      modifies this`bookings
      ensures Valid()
      ensures fails ==> count == 0 && bookings == old(bookings)
      ensures !fails ==>
        bookings == Sweep(old(bookings), now)
        && count == Count(old(bookings), (b: Booking) => IsExpired(b, now))
    {
      if fails {
        return 0;
      }
      count := Count(bookings, (b: Booking) => IsExpired(b, now));
      var swept := Sweep(bookings, now);
      SweepKeepsRows(bookings, now, nextId);
      StillLinked(conversations, bookings, swept);
      bookings := swept;
    }
  }
}
