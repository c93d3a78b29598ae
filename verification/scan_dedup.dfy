/** Scan-poll deduplication: how a reply of the scan endpoint updates the
    remembered scan id and check-in, and whether it counts as a new scan.
    The clause for a repeated id compares `Date(checkIn) <= Date.now()`;
    its value is a parameter here, and the value the code computes is
    `LiteralDateGuard`. */
module ScanDedup {
  import opened Text
  import opened Values

  /** The fields of a scan-endpoint reply the controller reads:
      `status`, `last_scan_id`, `stats.checkIn` and `member_status`. */
  datatype ScanResponse = ScanResponse(status: Val, lastScanId: Val, checkIn: Val, memberStatus: Val)

  /** What one reply does: the id and check-in to remember (None: leave the
      stored value alone) and whether it is a new scan. */
  datatype PollUpdate = PollUpdate(setId: Option<Val>, setCheckIn: Option<Val>, isNew: bool)

  /** `update_found` with a truthy id. */
  predicate IsUpdate(resp: ScanResponse) {
    resp.status == Str("update_found") && JsTruthy(resp.lastScanId)
  }

  /** `String(v).trim()`. */
  function TrimmedText(v: Val): string {
    JsTrim(JsToString(v))
  }

  /** `Date(x)` called without `new` returns the current date as a string,
      and comparing that string with the number `Date.now()` converts it to
      NaN, so the guard is false for every check-in. */
  const LiteralDateGuard: bool := false

  /** The reply classification of `handleScanPoll`, given the remembered id
      and check-in and the value of the date guard. */
  function Classify(lastId: Val, lastCheckIn: Val, resp: ScanResponse, guard: bool): (r: PollUpdate)
    ensures IsUpdate(resp) ==> r.setId == Some(resp.lastScanId) && r.setCheckIn == Some(resp.checkIn)
    ensures IsUpdate(resp) ==>
      (r.isNew <==> lastId != resp.lastScanId
                    || (TrimmedText(resp.checkIn) != TrimmedText(lastCheckIn) && guard))
    ensures !IsUpdate(resp) ==> !r.isNew && r.setCheckIn.None?
    ensures !IsUpdate(resp) && resp.status == Str("error") ==>
      (r.setId.Some? <==> JsTruthy(resp.lastScanId)) && (r.setId.Some? ==> r.setId.value == resp.lastScanId)
    ensures resp.status != Str("update_found") && resp.status != Str("error") ==> r == PollUpdate(None, None, false)
  {
    if IsUpdate(resp) then
      var isNew :=
        if lastId != resp.lastScanId then true
        else TrimmedText(resp.checkIn) != TrimmedText(lastCheckIn) && guard;
      PollUpdate(Some(resp.lastScanId), Some(resp.checkIn), isNew)
    else if resp.status == Str("error") then
      PollUpdate(if JsTruthy(resp.lastScanId) then Some(resp.lastScanId) else None, None, false)
    else
      PollUpdate(None, None, false)
  }

  /** The remembered values after applying an update. */
  function Remember(current: Val, update: Option<Val>): Val {
    update.GetOr(current)
  }

  /** A reply is never new twice: once its id and check-in are remembered,
      the same reply counts as old, whatever the guard says. */
  lemma RepeatIsNotNew(lastId: Val, lastCheckIn: Val, resp: ScanResponse, g1: bool, g2: bool)
    ensures var u := Classify(lastId, lastCheckIn, resp, g1);
      !Classify(Remember(lastId, u.setId), Remember(lastCheckIn, u.setCheckIn), resp, g2).isNew
  {
  }

  /** What a reply says to remember depends on the reply alone, not on the
      remembered values or the guard. */
  lemma RememberedFromReply(lastId: Val, lastCheckIn: Val, otherId: Val, otherCheckIn: Val, resp: ScanResponse, g1: bool, g2: bool)
    ensures var u1 := Classify(lastId, lastCheckIn, resp, g1);
      var u2 := Classify(otherId, otherCheckIn, resp, g2);
      u1.setId == u2.setId && u1.setCheckIn == u2.setCheckIn
  {
  }

  /** As written, a reply repeating the remembered id is never new, however
      its check-in differs: a member who checks in again on the same scan
      row is not shown. */
  lemma AsWrittenIgnoresRecheckIn(lastCheckIn: Val, resp: ScanResponse)
    requires IsUpdate(resp)
    ensures !Classify(resp.lastScanId, lastCheckIn, resp, LiteralDateGuard).isNew
  {
  }

  /** The guard as evidently intended: the check-in, read as a time, is not
      later than now. Reading a check-in string as a time is not modelled:
      the two instants are inputs. */
  function IntendedDateGuard(checkInTime: int, now: int): bool {
    checkInTime <= now
  }

  /** With the intended guard, the same id with a changed check-in in the
      past is a new scan, where the code as written ignores it: id 100
      checked in at "2026-10-10 10:00:00" and again at
      "2026-10-10 10:05:00" shows the member twice. */
  lemma IntendedGuardShowsRecheckIn(id: Val, earlier: string, later: string, checkInTime: int, now: int)
    requires JsTruthy(id) && earlier != later
    requires Trimmed(earlier, IsJsSpace) && Trimmed(later, IsJsSpace)
    requires checkInTime <= now
    ensures var resp := ScanResponse(Str("update_found"), id, Str(later), Str("allowed"));
      Classify(id, Str(earlier), resp, IntendedDateGuard(checkInTime, now)).isNew
    ensures var resp := ScanResponse(Str("update_found"), id, Str(later), Str("allowed"));
      !Classify(id, Str(earlier), resp, LiteralDateGuard).isNew
  {
    TrimOfTrimmed(earlier, IsJsSpace);
    TrimOfTrimmed(later, IsJsSpace);
  }
}
