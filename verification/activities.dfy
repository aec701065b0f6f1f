/** The activity store and the two request handlers that mutate it:
    signing a student up for an activity and unregistering one. Each handler
    is a pure transition from the store it loaded to an outcome; whether the
    final save succeeds is an input, not an effect. */
module Activities {
  import Roster

  /** One activity record as the store file holds it. */
  datatype Activity = Activity(
    description: string,
    schedule: string,
    maxParticipants: int,
    participants: seq<string>)

  /** The whole store: activity name to activity record. */
  type Store = map<string, Activity>

  /** What a handler answers. `Ok` carries the store it has just saved. */
  datatype Outcome =
    | NotFound        // HTTP 404: no activity of that name
    | BadRequest      // HTTP 400: already signed up / not signed up
    | InternalError   // HTTP 500: the save reported failure
    | Ok(store: Store, message: string)

  /** The store invariant: no activity lists the same email twice. */
  predicate Valid(store: Store)
  {
    forall name :: name in store ==> Roster.NoDuplicates(store[name].participants)
  }

  /** `after` differs from `before` at most in the participant list of
      activity `name`: same activities, same other records, same
      description, schedule and capacity. */
  predicate OnlyRosterChanged(before: Store, after: Store, name: string)
  {
    && after.Keys == before.Keys
    && (forall other :: other in before && other != name ==> after[other] == before[other])
    && (name in before ==>
          && after[name].description == before[name].description
          && after[name].schedule == before[name].schedule
          && after[name].maxParticipants == before[name].maxParticipants)
  }

  /** `store` with the participant list of `name` replaced by `roster`. */
  function WithRoster(store: Store, name: string, roster: seq<string>): (r: Store)
    requires name in store
    ensures OnlyRosterChanged(store, r, name)
    ensures r[name].participants == roster
  {
    store[name := store[name].(participants := roster)]
  }

  /** The confirmation a successful signup answers with. */
  function SignupMessage(email: string, name: string): (m: string)
  {
    "Signed up " + email + " for " + name
  }

  /** The confirmation a successful unregister answers with. */
  function UnregisterMessage(email: string, name: string): (m: string)
  {
    "Unregistered " + email + " from " + name
  }

  /** What a handler decides before it tries to save: refuse the request,
      or write back an updated store and answer with a message. */
  datatype Change =
    | Reject(outcome: Outcome)
    | Write(updated: Store, message: string)

  /** The answer once the save of a change has reported success or not. */
  function Commit(change: Change, saveOk: bool): (o: Outcome)
  {
    match change
    case Reject(outcome) => outcome
    case Write(updated, message) => if saveOk then Ok(updated, message) else InternalError
  }

  /** The checks and the mutation of the signup handler: the activity must
      exist, then the email must not be on its list yet; the email is then
      appended. Capacity is not consulted. */
  function SignupChange(store: Store, name: string, email: string): (c: Change)
    ensures name !in store ==> c == Reject(NotFound)
    ensures name in store && email in store[name].participants ==> c == Reject(BadRequest)
    ensures c.Write? <==> name in store && email !in store[name].participants
    ensures c.Write? ==>
              && OnlyRosterChanged(store, c.updated, name)
              && c.updated[name].participants == store[name].participants + [email]
              && c.message == SignupMessage(email, name)
  {
    if name !in store then Reject(NotFound)
    else
      var roster := store[name].participants;
      if email in roster then Reject(BadRequest)
      else Write(WithRoster(store, name, roster + [email]), SignupMessage(email, name))
  }

  /** The checks and the mutation of the unregister handler: the activity
      must exist, then the email must be on its list; its first occurrence
      is then removed. */
  function UnregisterChange(store: Store, name: string, email: string): (c: Change)
    ensures name !in store ==> c == Reject(NotFound)
    ensures name in store && email !in store[name].participants ==> c == Reject(BadRequest)
    ensures c.Write? <==> name in store && email in store[name].participants
    ensures c.Write? ==>
              && OnlyRosterChanged(store, c.updated, name)
              && |c.updated[name].participants| == |store[name].participants| - 1
              && multiset(c.updated[name].participants)
                 == multiset(store[name].participants) - multiset{email}
              && c.message == UnregisterMessage(email, name)
  {
    if name !in store then Reject(NotFound)
    else
      var roster := store[name].participants;
      if email !in roster then Reject(BadRequest)
      else
        Roster.RemoveFirstMultiset(roster, email);
        Write(WithRoster(store, name, Roster.RemoveFirst(roster, email)), UnregisterMessage(email, name))
  }

  /** POST /activities/{name}/signup?email=...: NotFound before any look at
      the email, BadRequest for a duplicate, InternalError when the save
      fails, and otherwise the store with the email appended. Capacity is
      not consulted, so a full activity still accepts a new email. */
  function Signup(store: Store, name: string, email: string, saveOk: bool): (o: Outcome)
    ensures name !in store ==> o == NotFound
    ensures name in store && email in store[name].participants ==> o == BadRequest
    ensures o == InternalError <==> name in store && email !in store[name].participants && !saveOk
    ensures o.Ok? <==> name in store && email !in store[name].participants && saveOk
    ensures o.Ok? ==>
              && OnlyRosterChanged(store, o.store, name)
              && o.store[name].participants == store[name].participants + [email]
              && o.message == SignupMessage(email, name)
  {
    Commit(SignupChange(store, name, email), saveOk)
  }

  /** DELETE /activities/{name}/unregister?email=...: NotFound before any
      look at the email, BadRequest for an email not on the list,
      InternalError when the save fails, and otherwise the store with one
      copy of the email removed. */
  function Unregister(store: Store, name: string, email: string, saveOk: bool): (o: Outcome)
    ensures name !in store ==> o == NotFound
    ensures name in store && email !in store[name].participants ==> o == BadRequest
    ensures o == InternalError <==> name in store && email in store[name].participants && !saveOk
    ensures o.Ok? <==> name in store && email in store[name].participants && saveOk
    ensures o.Ok? ==>
              && OnlyRosterChanged(store, o.store, name)
              && |o.store[name].participants| == |store[name].participants| - 1
              && multiset(o.store[name].participants)
                 == multiset(store[name].participants) - multiset{email}
              && o.message == UnregisterMessage(email, name)
  {
    Commit(UnregisterChange(store, name, email), saveOk)
  }

  /** A successful unregister keeps every other entry in its original
      order: the new list is the old one with the first occurrence of the
      email cut out. */
  lemma UnregisterKeepsOrder(store: Store, name: string, email: string, saveOk: bool)
    requires Unregister(store, name, email, saveOk).Ok?
    ensures var before := store[name].participants;
            var k := Roster.FirstIndex(before, email);
            && before[k] == email
            && email !in before[..k]
            && Unregister(store, name, email, saveOk).store[name].participants
               == before[..k] + before[k + 1..]
  {
    Roster.RemoveFirstSplits(store[name].participants, email);
  }

  /** Signing up keeps the store free of duplicate emails. */
  lemma SignupPreservesValid(store: Store, name: string, email: string, saveOk: bool)
    requires Valid(store)
    ensures var o := Signup(store, name, email, saveOk);
            o.Ok? ==> Valid(o.store)
  {
  }

  /** Unregistering keeps the store free of duplicate emails, and the email
      is then no longer on the list at all. */
  lemma UnregisterPreservesValid(store: Store, name: string, email: string, saveOk: bool)
    requires Valid(store)
    ensures var o := Unregister(store, name, email, saveOk);
            o.Ok? ==> Valid(o.store) && email !in o.store[name].participants
  {
    var o := Unregister(store, name, email, saveOk);
    if o.Ok? {
      Roster.NoDuplicatesRemoveFirst(store[name].participants, email);
    }
  }

  /** Unregistering the same email twice: the second request is refused
      with BadRequest rather than succeeding silently. */
  lemma UnregisterTwiceFails(store: Store, name: string, email: string, saveOk: bool, saveOk2: bool)
    requires Valid(store)
    requires Unregister(store, name, email, saveOk).Ok?
    ensures Unregister(Unregister(store, name, email, saveOk).store, name, email, saveOk2) == BadRequest
  {
    UnregisterPreservesValid(store, name, email, saveOk);
  }

  /** The invariant is what makes a repeated unregister fail: on a list
      that names the same email twice (loading does not check the file's
      contents), the first unregister removes only one copy and the second
      one succeeds too. */
  lemma UnregisterTwiceOnDuplicates()
    ensures var store := map["Art" := Activity("", "", 1, ["e", "e"])];
            var first := Unregister(store, "Art", "e", true);
            && first.Ok?
            && first.store["Art"].participants == ["e"]
            && Unregister(first.store, "Art", "e", true).Ok?
  {
  }

  /** Signing up twice: the second request is refused with BadRequest. */
  lemma SignupTwiceFails(store: Store, name: string, email: string, saveOk: bool, saveOk2: bool)
    requires Signup(store, name, email, saveOk).Ok?
    ensures Signup(Signup(store, name, email, saveOk).store, name, email, saveOk2) == BadRequest
  {
  }

  /** Signing a fresh email up and then unregistering it gives back exactly
      the store the signup started from. */
  lemma SignupThenUnregister(store: Store, name: string, email: string)
    requires Signup(store, name, email, true).Ok?
    ensures var s := Signup(store, name, email, true).store;
            Unregister(s, name, email, true) == Ok(store, UnregisterMessage(email, name))
  {
    var roster := store[name].participants;
    Roster.RemoveFirstOfAppended(roster, email);
    var s := WithRoster(store, name, roster + [email]);
    assert SignupChange(store, name, email) == Write(s, SignupMessage(email, name));
    var back := WithRoster(s, name, roster);
    assert UnregisterChange(s, name, email) == Write(back, UnregisterMessage(email, name));
    assert back[name] == store[name];
    assert back == store;
  }
}
