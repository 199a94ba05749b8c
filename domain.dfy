/** `internal/domain/user_details.go`: the user details carried through a
    request, and the audit fields stamped from the caller's user id. */
module Domain {
  import opened Common
  import opened Strconv

  /** A `time.Time`, as nanoseconds since the Unix epoch. The clock is not
      modelled: SetUpdated receives the current time as a parameter. */
  type Time = int

  datatype UserIDError =
    | NilUserDetails   // "user details is empty"
    | EmptyUserID      // "user id is empty"
    | ParseFailure(cause: NumError)

  /** The value of every field of a UserDetails record. */
  datatype Fields = Fields(
    userName: Str, userId: Str, userEmail: Str, tenantName: Str, tenantId: Str,
    createByUserId: Uint64, updatedAt: Time, updatedByUserId: Uint64)

  class UserDetails {
    var userName: Str
    var userId: Str
    var userEmail: Str
    var tenantName: Str
    var tenantId: Str
    var createByUserId: Uint64
    var updatedAt: Time
    var updatedByUserId: Uint64

    constructor (f: Fields)
      ensures Snapshot() == f
    {
      userName, userId, userEmail := f.userName, f.userId, f.userEmail;
      tenantName, tenantId := f.tenantName, f.tenantId;
      createByUserId, updatedAt, updatedByUserId := f.createByUserId, f.updatedAt, f.updatedByUserId;
    }

    function Snapshot(): Fields
      reads this
    {
      Fields(userName, userId, userEmail, tenantName, tenantId, createByUserId, updatedAt, updatedByUserId)
    }
  }

  /** The checks getUserIDUint64 makes of a non-nil receiver's UserID. */
  function UserIDOf(userId: Str): (r: (Uint64, Option<UserIDError>))
    ensures r.1.None? <==> IsUint64Decimal(userId)
    ensures r.1.None? ==> r.0 == DecimalValue(userId)
    ensures r.1.Some? ==> r.0 == 0
    ensures userId == [] ==> r.1 == Some(EmptyUserID)
  {
    if |userId| == 0 then (0, Some(EmptyUserID))
    else
      var p := ParseUint(userId);
      if p.err.Some? then (0, Some(ParseFailure(p.err.value)))
      else (p.value, None)
  }

  /** `(*UserDetails).getUserIDUint64`: an error for a nil receiver and for an
      empty UserID; otherwise the decimal value of UserID, or an error when it
      is not a valid uint64 decimal. The value is 0 whenever there is an error. */
  function GetUserIDUint64(u: UserDetails?): (r: (Uint64, Option<UserIDError>))
    reads u
    ensures u == null ==> r == (0, Some(NilUserDetails))
    ensures u != null && u.userId == [] ==> r == (0, Some(EmptyUserID))
    ensures r.1.None? <==> u != null && IsUint64Decimal(u.userId)
    ensures r.1.None? ==> r.0 == DecimalValue(u.userId)
    ensures r.1.Some? ==> r.0 == 0
  {
    if u == null then (0, Some(NilUserDetails)) else UserIDOf(u.userId)
  }

  /** The record after SetCreated: CreateByUserID is the parsed user id when
      the parse succeeds; otherwise, and for every other field, nothing changes. */
  function AfterSetCreated(f: Fields): (g: Fields)
    ensures IsUint64Decimal(f.userId) ==> g == f.(createByUserId := DecimalValue(f.userId))
    ensures !IsUint64Decimal(f.userId) ==> g == f
  {
    var (id, err) := UserIDOf(f.userId);
    if err.Some? then f else f.(createByUserId := id)
  }

  /** The record after SetUpdated at time now: UpdatedByUserID is the parsed
      user id and UpdatedAt is now when the parse succeeds; otherwise, and for
      every other field, nothing changes. */
  function AfterSetUpdated(f: Fields, now: Time): (g: Fields)
    ensures IsUint64Decimal(f.userId) ==>
      g == f.(updatedByUserId := DecimalValue(f.userId), updatedAt := now)
    ensures !IsUint64Decimal(f.userId) ==> g == f
  {
    var (id, err) := UserIDOf(f.userId);
    if err.Some? then f else f.(updatedByUserId := id, updatedAt := now)
  }

  /** `(*UserDetails).SetCreated`: on a successful parse it stamps
      CreateByUserID and returns the receiver; otherwise it returns nil and
      changes nothing. A nil receiver is allowed, as in Go. */
  method SetCreated(u: UserDetails?) returns (userDetails: UserDetails?)
    modifies u
    ensures u != null ==> u.Snapshot() == AfterSetCreated(old(u.Snapshot()))
    ensures userDetails == (if old(GetUserIDUint64(u)).1.None? then u else null)
  {
    var (userID, err) := GetUserIDUint64(u);
    if err.Some? {
      return null;
    }
    u.createByUserId := userID;
    return u;
  }

  /** `(*UserDetails).SetUpdated`, with the current time passed in: on a
      successful parse it stamps UpdatedByUserID and UpdatedAt and returns the
      receiver; otherwise it returns nil and changes nothing. */
  method SetUpdated(u: UserDetails?, now: Time) returns (userDetails: UserDetails?)
    modifies u
    ensures u != null ==> u.Snapshot() == AfterSetUpdated(old(u.Snapshot()), now)
    ensures userDetails == (if old(GetUserIDUint64(u)).1.None? then u else null)
  {
    var (userID, err) := GetUserIDUint64(u);
    if err.Some? {
      return null;
    }
    u.updatedByUserId := userID;
    u.updatedAt := now;
    return u;
  }

  /** Calling SetCreated a second time leaves the record as the first call left it. */
  lemma SetCreatedIdempotent(f: Fields)
    ensures AfterSetCreated(AfterSetCreated(f)) == AfterSetCreated(f)
  {
  }

  /** Calling SetUpdated twice with the same time is calling it once. */
  lemma SetUpdatedIdempotent(f: Fields, now: Time)
    ensures AfterSetUpdated(AfterSetUpdated(f, now), now) == AfterSetUpdated(f, now)
  {
  }

  /** The two stamps touch disjoint fields, so their order does not matter. */
  lemma SetCreatedSetUpdatedCommute(f: Fields, now: Time)
    ensures AfterSetCreated(AfterSetUpdated(f, now)) == AfterSetUpdated(AfterSetCreated(f), now)
  {
  }

  /** A caller that stamps a record twice sees the same record as after one
      stamp, and both calls return the same pointer. */
  method SetCreatedTwice(u: UserDetails) returns (first: UserDetails?, second: UserDetails?)
    modifies u
    ensures u.Snapshot() == AfterSetCreated(old(u.Snapshot()))
    ensures first == second
  {
    ghost var before := u.Snapshot();
    first := SetCreated(u);
    second := SetCreated(u);
    SetCreatedIdempotent(before);
  }
}
