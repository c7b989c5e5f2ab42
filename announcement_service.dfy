/**
 * The announcement broadcaster (backend/src/announcements/announcement.service.ts): a
 * message mailed to the registrants of an event and recorded with the number of
 * addresses it went to. The mail transport is the parameter `deliver`, which answers
 * whether the send succeeded; a failed send is rethrown, as
 * backend/src/email/email.service.ts does.
 */
module AnnouncementService {
  import opened Common
  import opened Tables
  import opened AnnouncementEntity
  import opened Store
  import RegistrationEntity
  import EventService
  import RegistrationService

  /** One announcement mail: every recipient address, the subject, the message and the event's title. */
  datatype Mail = Mail(recipients: seq<string>, subject: string, message: string, eventTitle: string)

  /** The recipient list: the email snapshot of each of the event's registrations, in order. */
  function Recipients(s: Db, eventId: int): (r: seq<string>)
    requires Wf(s)
    ensures |r| == |RegistrationService.ByEvent(s, eventId)|
    ensures |r| == RegistrationService.GetRegistrationCount(s, eventId)
    ensures forall i :: 0 <= i < |r| ==> r[i] == RegistrationService.ByEvent(s, eventId)[i].userEmail
  {
    var regs := RegistrationService.ByEvent(s, eventId);
    seq(|regs|, i requires 0 <= i < |regs| => regs[i].userEmail)
  }

  /** The mail `create` sends: none for an absent event or an event without registrations. */
  function Outbox(s: Db, eventId: int, subject: string, message: string): (r: Option<Mail>)
    requires Wf(s)
    ensures r.Some? <==> eventId in s.events && |Recipients(s, eventId)| > 0
    ensures r.Some? ==> r.value == Mail(Recipients(s, eventId), subject, message, s.events[eventId].title)
  {
    match EventService.FindById(s, eventId)
    case Err(_) => None
    case Ok(event) =>
      var recipients := Recipients(s, eventId);
      if |recipients| > 0 then Some(Mail(recipients, subject, message, event.title)) else None
  }

  // ----- steps -----

  /**
   * `create`: NotFound for an absent event; a failed send is rethrown and nothing is
   * stored; otherwise the record is saved with the number of recipients, whatever the
   * transport later does with each address.
   */
  function CreateStep(s: Db, eventId: int, subject: string, message: string, sentBy: int, sentByName: string,
                      now: int, deliver: Mail -> bool): (r: Step<Announcement>)
    requires Wf(s)
    ensures Wf(r.after)
    ensures eventId !in s.events ==> r == Step(Err(NotFound), s)
    ensures Outbox(s, eventId, subject, message).Some? && !deliver(Outbox(s, eventId, subject, message).value) ==>
      r == Step(Err(MailFailed), s)
    ensures r.result.Ok? <==>
      eventId in s.events && (Outbox(s, eventId, subject, message).None? || deliver(Outbox(s, eventId, subject, message).value))
    ensures r.result.Ok? ==>
      var a := r.result.value;
      && a.id == s.nextAnnouncementId && a.id !in s.announcements
      && a.eventId == eventId && a.subject == subject && a.message == message
      && a.sentBy == sentBy && a.sentByName == sentByName && a.sentAt == now
      && a.recipientCount == |Recipients(s, eventId)|
      && r.after == s.(announcements := s.announcements[a.id := a], nextAnnouncementId := a.id + 1)
  {
    match EventService.FindById(s, eventId)
    case Err(err) => Step(Err(err), s)
    case Ok(event) =>
      var recipients := Recipients(s, eventId);
      if |recipients| > 0 && !deliver(Mail(recipients, subject, message, event.title)) then Step(Err(MailFailed), s)
      else
        var a := Announcement(s.nextAnnouncementId, eventId, subject, message, sentBy, sentByName, |recipients|, now);
        Step(Ok(a), s.(announcements := s.announcements[a.id := a], nextAnnouncementId := a.id + 1))
  }

  function FindById(s: Db, id: int): (r: Result<Announcement>)
    requires Wf(s)
    ensures r.Err? <==> id !in s.announcements
    ensures r.Err? ==> r.error == NotFound
    ensures r.Ok? ==> r.value.id == id && r.value == s.announcements[id]
  {
    if id in s.announcements then Ok(s.announcements[id]) else Err(NotFound)
  }

  /** `delete`: NotFound for an absent id; otherwise exactly that record is removed. */
  function DeleteStep(s: Db, id: int): (r: Step<()>)
    requires Wf(s)
    ensures Wf(r.after)
    ensures id !in s.announcements ==> r == Step(Err(NotFound), s)
    ensures id in s.announcements ==> r == Step(Ok(()), s.(announcements := s.announcements - {id}))
  {
    match FindById(s, id)
    case Err(err) => Step(Err(err), s)
    case Ok(_) => Step(Ok(()), s.(announcements := s.announcements - {id}))
  }

  // ----- findByEvent: ordered by sentAt, newest first -----

  predicate NewestFirst(xs: seq<Announcement>) {
    forall i, j :: 0 <= i < j < |xs| ==> xs[i].sentAt >= xs[j].sentAt
  }

  /** Places x before the first record older than it. */
  function InsertNewestFirst(x: Announcement, xs: seq<Announcement>): (r: seq<Announcement>)
    ensures multiset(r) == multiset(xs) + multiset{x}
    ensures |r| > 0 && (r[0] == x || (|xs| > 0 && r[0] == xs[0]))
    decreases |xs|
  {
    if |xs| == 0 then [x]
    else if xs[0].sentAt >= x.sentAt then
      assert xs == [xs[0]] + xs[1..];
      [xs[0]] + InsertNewestFirst(x, xs[1..])
    else [x] + xs
  }

  lemma {:induction false} InsertKeepsNewestFirst(x: Announcement, xs: seq<Announcement>)
    requires NewestFirst(xs)
    ensures NewestFirst(InsertNewestFirst(x, xs))
    decreases |xs|
  {
    if |xs| > 0 && xs[0].sentAt >= x.sentAt {
      InsertKeepsNewestFirst(x, xs[1..]);
      var rest := InsertNewestFirst(x, xs[1..]);
      assert xs[0].sentAt >= rest[0].sentAt;
      var r := [xs[0]] + rest;
      forall i, j | 0 <= i < j < |r|
        ensures r[i].sentAt >= r[j].sentAt
      {
        if i == 0 && j > 1 {
          assert rest[0].sentAt >= rest[j - 1].sentAt;
        }
      }
    }
  }

  /** The rows reordered newest first (an insertion sort). */
  function SortNewestFirst(xs: seq<Announcement>): (r: seq<Announcement>)
    ensures NewestFirst(r) && multiset(r) == multiset(xs)
    decreases |xs|
  {
    if |xs| == 0 then []
    else
      assert xs == [xs[0]] + xs[1..];
      InsertKeepsNewestFirst(xs[0], SortNewestFirst(xs[1..]));
      InsertNewestFirst(xs[0], SortNewestFirst(xs[1..]))
  }

  /** The event's announcements as the table scan yields them, in id order. */
  function EventRows(s: Db, eventId: int): (r: seq<Announcement>)
    requires Wf(s)
    ensures |r| == |Matching(s.announcements, EventIdOf, eventId)|
    ensures forall x :: x in r ==> x.eventId == eventId && x.id in s.announcements && s.announcements[x.id] == x
    ensures forall id :: id in s.announcements && s.announcements[id].eventId == eventId ==> s.announcements[id] in r
  {
    KeyedBelow(s.announcements, IdOf, s.nextAnnouncementId);
    WhereAnswers(s.announcements, IdOf, EventIdOf, eventId, s.nextAnnouncementId);
    WhereCount(s.announcements, EventIdOf, eventId, s.nextAnnouncementId);
    Where(s.announcements, EventIdOf, eventId, s.nextAnnouncementId)
  }

  /** `findByEvent`: exactly the event's announcements, newest first. */
  function FindByEvent(s: Db, eventId: int): (r: seq<Announcement>)
    requires Wf(s)
    ensures NewestFirst(r)
    ensures |r| == |Matching(s.announcements, EventIdOf, eventId)|
    ensures forall i :: 0 <= i < |r| ==> r[i].eventId == eventId && r[i].id in s.announcements && s.announcements[r[i].id] == r[i]
    ensures forall id :: id in s.announcements && s.announcements[id].eventId == eventId ==> s.announcements[id] in r
  {
    var rows := EventRows(s, eventId);
    SameRows(rows, SortNewestFirst(rows));
    SortNewestFirst(rows)
  }

  /** Two orderings of the same rows have the same length and the same members. */
  lemma SameRows(xs: seq<Announcement>, ys: seq<Announcement>)
    requires multiset(xs) == multiset(ys)
    ensures |xs| == |ys| && forall x :: x in xs <==> x in ys
  {
    assert |xs| == |multiset(xs)| && |ys| == |multiset(ys)|;
    forall x
      ensures x in xs <==> x in ys
    {
      assert x in xs <==> x in multiset(xs);
      assert x in ys <==> x in multiset(ys);
    }
  }

  // ----- properties relating several calls -----

  /** With no registrations the transport is never consulted: any two transports give the same step. */
  lemma NoRecipientsNoMail(s: Db, eventId: int, subject: string, message: string, sentBy: int, sentByName: string,
                           now: int, d1: Mail -> bool, d2: Mail -> bool)
    requires Wf(s) && |Recipients(s, eventId)| == 0
    ensures CreateStep(s, eventId, subject, message, sentBy, sentByName, now, d1) ==
            CreateStep(s, eventId, subject, message, sentBy, sentByName, now, d2)
  {
  }

  /** With matching counters, the recorded recipient count is the event's registration counter. */
  lemma RecipientCountIsCounter(s: Db, eventId: int, subject: string, message: string, sentBy: int, sentByName: string,
                                now: int, deliver: Mail -> bool)
    requires Wf(s) && RegistrationService.CountsMatch(s)
    requires CreateStep(s, eventId, subject, message, sentBy, sentByName, now, deliver).result.Ok?
    ensures CreateStep(s, eventId, subject, message, sentBy, sentByName, now, deliver).result.value.recipientCount ==
            s.events[eventId].registrationCount
  {
    RegistrationService.CountAgrees(s, eventId);
  }

  /** Deleting the announcement just created restores the store, except that the id is used up. */
  lemma DeleteUndoesCreate(s: Db, eventId: int, subject: string, message: string, sentBy: int, sentByName: string,
                           now: int, deliver: Mail -> bool)
    requires Wf(s) && CreateStep(s, eventId, subject, message, sentBy, sentByName, now, deliver).result.Ok?
    ensures var r := CreateStep(s, eventId, subject, message, sentBy, sentByName, now, deliver);
      DeleteStep(r.after, r.result.value.id) == Step(Ok(()), s.(nextAnnouncementId := s.nextAnnouncementId + 1))
  {
    var r := CreateStep(s, eventId, subject, message, sentBy, sentByName, now, deliver);
    assert r.after.announcements - {r.result.value.id} == s.announcements;
  }

  // ----- the service, on the store in place -----

  method Create(db: Database, eventId: int, subject: string, message: string, sentBy: int, sentByName: string,
                now: int, deliver: Mail -> bool) returns (r: Result<Announcement>)
    requires db.Valid()
    modifies db`announcements, db`nextAnnouncementId
    ensures db.Valid()
    ensures Step(r, db.Snapshot()) == CreateStep(old(db.Snapshot()), eventId, subject, message, sentBy, sentByName, now, deliver)
  {
    var found := EventService.FindById(db.Snapshot(), eventId);
    if found.Err? {
      return Err(found.error);
    }
    var recipientEmails := Recipients(db.Snapshot(), eventId);
    if |recipientEmails| > 0 {
      var sent := deliver(Mail(recipientEmails, subject, message, found.value.title));
      if !sent {
        return Err(MailFailed);
      }
    }
    var a := Announcement(db.nextAnnouncementId, eventId, subject, message, sentBy, sentByName, |recipientEmails|, now);
    db.announcements := db.announcements[a.id := a];
    db.nextAnnouncementId := db.nextAnnouncementId + 1;
    r := Ok(a);
  }

  method Delete(db: Database, id: int) returns (r: Result<()>)
    requires db.Valid()
    modifies db`announcements
    ensures db.Valid()
    ensures Step(r, db.Snapshot()) == DeleteStep(old(db.Snapshot()), id)
  {
    var found := FindById(db.Snapshot(), id);
    if found.Err? {
      return Err(found.error);
    }
    db.announcements := db.announcements - {id};
    r := Ok(());
  }
}
