/** The pre-booking dashboard (`AdminDashboard`): the list of consultation
    requests, the request opened in the detail dialog, and the approve/reject
    decision on a pending request. The backend update is a parameter that
    either succeeded or failed. */
module Dashboard {
  import opened Common

  datatype ReservationStatus = Pending | Approved | Rejected

  /** `desired_dates` holds either a list of dates or one free-text value. */
  datatype DesiredDates = DateList(dates: seq<string>) | DateText(text: string)

  datatype Reservation = Reservation(
    id: string,
    customerName: string,
    gender: string,
    age: int,
    phone: string,
    desiredService: string,
    referralSource: Option<string>,
    desiredDates: DesiredDates,
    priorExperience: Option<string>,
    frontPhotoUrl: Option<string>,
    closedPhotoUrl: Option<string>,
    status: ReservationStatus,
    createdAt: string)

  /** The two decisions the dialog can take. */
  datatype Decision = Approve | Reject

  function StatusOf(d: Decision): (s: ReservationStatus)
    ensures s != Pending
  {
    match d
    case Approve => Approved
    case Reject => Rejected
  }

  /** What the screen holds: the list, and the request open in the dialog. */
  datatype DashboardState = DashboardState(reservations: seq<Reservation>, selected: Option<Reservation>)

  /** Every request with id `id` takes `status`; nothing else changes. */
  function SetStatus(reservations: seq<Reservation>, id: string, status: ReservationStatus): (r: seq<Reservation>)
    ensures |r| == |reservations|
    ensures forall i | 0 <= i < |r| ::
              && r[i].(status := reservations[i].status) == reservations[i]
              && (reservations[i].id == id ==> r[i].status == status)
              && (reservations[i].id != id ==> r[i] == reservations[i])
  {
    Map(reservations, (x: Reservation) => if x.id == id then x.(status := status) else x)
  }

  /** `handleStatusChange`. The handler reads the open request when it is
      clicked (`openAtClick`) and applies its result after the update has
      been awaited, to the state `st` as it is then. After a failed update
      nothing changes; otherwise the matching requests of the list take the
      new status, and so does the request open at that moment when the one
      open at click time was the one decided on. */
  function HandleStatusChange(st: DashboardState, openAtClick: Option<Reservation>, id: string, decision: Decision, updateOk: bool)
    : (r: DashboardState)
    ensures !updateOk ==> r == st
    ensures updateOk ==> r.reservations == SetStatus(st.reservations, id, StatusOf(decision))
    ensures updateOk ==> r.selected.Some? == st.selected.Some?
    ensures updateOk && st.selected.Some? ==>
              if openAtClick.Some? && openAtClick.value.id == id then r.selected == Some(st.selected.value.(status := StatusOf(decision)))
              else r.selected == st.selected
  {
    if !updateOk then st
    else
      var reservations := SetStatus(st.reservations, id, StatusOf(decision));
      if openAtClick.Some? && openAtClick.value.id == id then
        match st.selected
        case Some(prev) => DashboardState(reservations, Some(prev.(status := StatusOf(decision))))
        case None => DashboardState(reservations, None)
      else DashboardState(reservations, st.selected)
  }

  /** When the dialog stays on the decided request during the update, only that
      request changes, in the list and in the dialog. */
  lemma DialogKeptDuringUpdate(st: DashboardState, id: string, decision: Decision)
    requires st.selected.Some?
    ensures var r := HandleStatusChange(st, st.selected, id, decision, true);
            && r.selected.Some?
            && (st.selected.value.id == id ==> r.selected.value == st.selected.value.(status := StatusOf(decision)))
            && (st.selected.value.id != id ==> r.selected == st.selected)
  {
  }

  /** When the operator opens another request while the update of the decided
      one is awaited, the request open at completion takes the new status
      although it was not decided on; the list itself stays right. */
  lemma DialogSwitchedDuringUpdate(st: DashboardState, decided: Reservation, decision: Decision)
    requires st.selected.Some? && st.selected.value.id != decided.id
    ensures var r := HandleStatusChange(st, Some(decided), decided.id, decision, true);
            && r.selected.Some? && r.selected.value.id != decided.id
            && r.selected.value.status == StatusOf(decision)
            && r.reservations == SetStatus(st.reservations, decided.id, StatusOf(decision))
  {
  }

  /** Deciding twice the same way is deciding once. */
  lemma DecidingTwiceIsDecidingOnce(st: DashboardState, openAtClick: Option<Reservation>, id: string, decision: Decision)
    ensures var once := HandleStatusChange(st, openAtClick, id, decision, true);
            HandleStatusChange(once, openAtClick, id, decision, true) == once
  {
    var once := HandleStatusChange(st, openAtClick, id, decision, true);
    var twice := HandleStatusChange(once, openAtClick, id, decision, true);
    assert twice.reservations == once.reservations;
  }

  /** Decisions on different requests, clicked from the same dialog state, do
      not interfere. */
  lemma DecisionsOnDifferentIdsCommute(st: DashboardState, openAtClick: Option<Reservation>, a: string, da: Decision, b: string, db: Decision)
    requires a != b
    ensures HandleStatusChange(HandleStatusChange(st, openAtClick, a, da, true), openAtClick, b, db, true)
         == HandleStatusChange(HandleStatusChange(st, openAtClick, b, db, true), openAtClick, a, da, true)
  {
    var sa, sb := StatusOf(da), StatusOf(db);
    var ab := SetStatus(SetStatus(st.reservations, a, sa), b, sb);
    var ba := SetStatus(SetStatus(st.reservations, b, sb), a, sa);
    assert ab == ba;
  }

  /** The dialog offers approve and reject on a pending request only. */
  function OfferedDecisions(s: ReservationStatus): (r: seq<Decision>)
    ensures |r| > 0 <==> s == Pending
    ensures s == Pending ==> Approve in r && Reject in r
    ensures forall d | d in r :: multiset(r)[d] == 1
  {
    if s == Pending then [Reject, Approve] else []
  }

  /** Once the open request is decided, the dialog offers nothing more. */
  lemma DecisionIsFinal(st: DashboardState, decision: Decision)
    requires st.selected.Some?
    ensures var r := HandleStatusChange(st, st.selected, st.selected.value.id, decision, true);
            r.selected.Some? && OfferedDecisions(r.selected.value.status) == []
  {
  }

  /** The texts joined with ", " between neighbours (`Array.prototype.join`). */
  function Join(texts: seq<string>): string {
    if |texts| == 0 then ""
    else if |texts| == 1 then texts[0]
    else texts[0] + ", " + Join(texts[1..])
  }

  /** Joining one more text appends a separator and that text. */
  lemma {:induction false} JoinSnoc(texts: seq<string>, t: string)
    requires |texts| > 0
    ensures Join(texts + [t]) == Join(texts) + ", " + t
  {
    if |texts| > 1 {
      JoinSnoc(texts[1..], t);
      assert (texts + [t])[1..] == texts[1..] + [t];
    } else {
      assert (texts + [t])[1..] == [t];
    }
  }

  function TotalLength(texts: seq<string>): nat {
    if texts == [] then 0 else |texts[0]| + TotalLength(texts[1..])
  }

  /** The joined text is the texts plus one two-character separator between
      each neighbouring pair. */
  lemma {:induction false} JoinLength(texts: seq<string>)
    requires |texts| > 0
    ensures |Join(texts)| == TotalLength(texts) + 2 * (|texts| - 1)
  {
    if |texts| > 1 {
      JoinLength(texts[1..]);
    }
  }

  /** How the dialog shows `desired_dates`. */
  function DisplayDesiredDates(d: DesiredDates): (s: string)
    ensures d.DateText? ==> s == d.text
    ensures d.DateList? ==> s == Join(d.dates)
    ensures d.DateList? && |d.dates| == 1 ==> s == d.dates[0]
    ensures d.DateList? && d.dates == [] ==> s == ""
  {
    match d
    case DateList(dates) => Join(dates)
    case DateText(text) => text
  }
}
