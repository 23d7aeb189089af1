/** Newsletter subscription (frappe_utils/website_customization/api/subscribe.py):
    a guarded insert into the Email Group Member table. The checks run in a fixed
    order, and the first one that fails decides the message. */
module Subscribe {

  /** An Email Group Member row. */
  datatype Member = Member(emailGroup: string, email: string, unsubscribed: bool)

  /** The two fields of Website Customization Settings the endpoint reads. */
  datatype Settings = Settings(mailEnabled: int, emailGroupName: string)

  datatype Status = Success | Error

  datatype Response = Response(status: Status, message: string)

  const NotEnabled := Response(Error, "Email Subscription is not enabled at the moment")
  const Unavailable := Response(Error, "Email Service temporarily unavaiable")
  const AlreadySubscribed := Response(Error, "You are already subscribed to our newsletter")
  const Subscribed := Response(Success, "You have been successfully subscribed to our newsletter")

  /** Is there a row for (group, email) that is not unsubscribed? */
  function HasActiveMember(rows: seq<Member>, group: string, email: string): (r: bool)
    ensures r <==> exists i :: 0 <= i < |rows| && rows[i] == Member(group, email, false)
  {
    if rows == [] then false
    else rows[0] == Member(group, email, false) || HasActiveMember(rows[1..], group, email)
  }

  /** Rows that are unsubscribed, or for another group or email, never block a subscription. */
  lemma OtherRowsDoNotBlock(rows: seq<Member>, other: Member, group: string, email: string)
    requires other.unsubscribed || other.emailGroup != group || other.email != email
    ensures HasActiveMember(rows + [other], group, email) == HasActiveMember(rows, group, email)
  {
    var both := rows + [other];
    assert forall i :: 0 <= i < |rows| ==> both[i] == rows[i];
    if HasActiveMember(both, group, email) {
      var i :| 0 <= i < |both| && both[i] == Member(group, email, false);
      assert i < |rows|;
    }
  }

  /** The check that fails first, if any. */
  function FirstFailure(settings: Settings, rows: seq<Member>, email: string): (r: Check)
    ensures settings.mailEnabled == 0 ==> r == Fails(NotEnabled)
    ensures settings.mailEnabled != 0 && settings.emailGroupName == "" ==> r == Fails(Unavailable)
    ensures settings.mailEnabled != 0 && settings.emailGroupName != "" ==>
              (r == Fails(AlreadySubscribed) <==> HasActiveMember(rows, settings.emailGroupName, email))
    ensures r == Passes <==>
              settings.mailEnabled != 0 && settings.emailGroupName != ""
              && !HasActiveMember(rows, settings.emailGroupName, email)
  {
    if settings.mailEnabled == 0 then Fails(NotEnabled)
    else if settings.emailGroupName == "" then Fails(Unavailable)
    else if HasActiveMember(rows, settings.emailGroupName, email) then Fails(AlreadySubscribed)
    else Passes
  }

  /** The outcome of the checks that run before the insert. */
  datatype Check = Passes | Fails(response: Response)

  /** The Email Group Member table. */
  class MemberTable {
    var rows: seq<Member>

    constructor (initial: seq<Member>)
      ensures rows == initial
    {
      rows := initial;
    }

    /** `email`: subscribe `email` to the configured group. A failing save
        (`saveSucceeds == false`) is reported as the service being unavailable. */
    method Email(settings: Settings, email: string, saveSucceeds: bool) returns (response: Response)
      modifies this
      ensures FirstFailure(settings, old(rows), email).Fails? ==>
                response == FirstFailure(settings, old(rows), email).response && rows == old(rows)
      ensures FirstFailure(settings, old(rows), email).Passes? && saveSucceeds ==>
                response == Subscribed && rows == old(rows) + [Member(settings.emailGroupName, email, false)]
      ensures FirstFailure(settings, old(rows), email).Passes? && !saveSucceeds ==>
                response == Unavailable && rows == old(rows)
    {
      if settings.mailEnabled == 0 {
        return NotEnabled;
      }
      var emailGroup := settings.emailGroupName;
      if emailGroup == "" {
        return Unavailable;
      }
      if HasActiveMember(rows, emailGroup, email) {
        return AlreadySubscribed;
      }
      if !saveSucceeds {
        return Unavailable;
      }
      rows := rows + [Member(emailGroup, email, false)];
      response := Subscribed;
    }
  }

  /** After a successful subscription the member is active, so a second call
      with the same settings and email is answered "already subscribed". */
  method SubscribeTwice(table: MemberTable, settings: Settings, email: string)
    returns (first: Response, second: Response)
    modifies table
    ensures first == Subscribed ==> second == AlreadySubscribed
  {
    first := table.Email(settings, email, true);
    if first == Subscribed {
      var last := |table.rows| - 1;
      assert table.rows[last] == Member(settings.emailGroupName, email, false);
    }
    second := table.Email(settings, email, true);
  }
}
