/**
 * The sign-in screen: barber registration, barber login against the registry
 * of barber accounts, and the client's automatic login. Submitting the form
 * either reports an error, logs a user in, or registers a barber and then
 * logs that barber in.
 */
module AuthView {
  import opened Types
  import opened Seqs

  datatype AuthMode = LoginMode | RegisterMode

  datatype AuthError = MissingFields | PhoneTaken | BadCredentials | MissingClientFields

  /** What the form holds when it is submitted. */
  datatype Form = Form(role: Role, mode: AuthMode, name: string, phone: string, password: string)

  datatype Outcome = Rejected(error: AuthError) | LoggedIn(user: User) | RegisteredAndLoggedIn(user: User)

  function PhoneIs(phone: string): User -> bool {
    (b: User) => b.phone == phone
  }

  function HasCredentials(phone: string, password: string): User -> bool {
    (b: User) => CredentialsMatch(b, phone, password)
  }

  predicate PhoneRegistered(registry: seq<User>, phone: string) {
    exists i :: 0 <= i < |registry| && registry[i].phone == phone
  }

  predicate CredentialsMatch(b: User, phone: string, password: string) {
    b.phone == phone && b.password == Some(password)
  }

  /** Account i is the first one of the registry with these credentials. */
  predicate FirstMatch(registry: seq<User>, i: int, phone: string, password: string) {
    && 0 <= i < |registry|
    && CredentialsMatch(registry[i], phone, password)
    && forall j :: 0 <= j < i ==> !CredentialsMatch(registry[j], phone, password)
  }

  /** The outcome of submitting the form against the current barber registry. */
  function Submit(form: Form, registry: seq<User>, freshId: string): (r: Outcome)
    // barber registration
    ensures form.role == Barber && form.mode == RegisterMode ==>
      && (form.name == [] || form.phone == [] || form.password == [] ==> r == Rejected(MissingFields))
      && ((form.name != [] && form.phone != [] && form.password != [] && PhoneRegistered(registry, form.phone))
            ==> r == Rejected(PhoneTaken))
      && (r.RegisteredAndLoggedIn? <==>
            form.name != [] && form.phone != [] && form.password != [] && !PhoneRegistered(registry, form.phone))
      && (r.RegisteredAndLoggedIn? ==>
            r.user == User(freshId, form.name, form.phone, Barber, Some(form.password)))
    // barber login
    ensures form.role == Barber && form.mode == LoginMode ==>
      && !r.RegisteredAndLoggedIn?
      && (r.LoggedIn? <==> exists i :: 0 <= i < |registry| && CredentialsMatch(registry[i], form.phone, form.password))
      && (r.LoggedIn? ==> exists i :: FirstMatch(registry, i, form.phone, form.password) && registry[i] == r.user)
      && (!r.LoggedIn? ==> r == Rejected(BadCredentials))
    // client login
    ensures form.role == Client ==>
      && !r.RegisteredAndLoggedIn?
      && (r.Rejected? <==> form.name == [] || form.phone == [])
      && (r.Rejected? ==> r.error == MissingClientFields)
      && (r.LoggedIn? ==> r.user == User(freshId, form.name, form.phone, Client, None))
  {
    match form.role
    case Barber =>
      if form.mode == RegisterMode then
        if form.name == [] || form.phone == [] || form.password == [] then Rejected(MissingFields)
        else if Find(registry, PhoneIs(form.phone)).Some? then Rejected(PhoneTaken)
        else RegisteredAndLoggedIn(User(freshId, form.name, form.phone, Barber, Some(form.password)))
      else
        var k := FindIndex(registry, HasCredentials(form.phone, form.password));
        if k == -1 then Rejected(BadCredentials) else LoggedIn(registry[k])
    case Client =>
      if form.name == [] || form.phone == [] then Rejected(MissingClientFields)
      else LoggedIn(User(freshId, form.name, form.phone, Client, None))
  }

  /** The registry once the outcome is applied: only a registration adds an account. */
  function RegistryAfter(registry: seq<User>, outcome: Outcome): (r: seq<User>)
    ensures |r| == |registry| + (if outcome.RegisteredAndLoggedIn? then 1 else 0)
    ensures r[..|registry|] == registry
    ensures outcome.RegisteredAndLoggedIn? ==> r[|registry|] == outcome.user
  {
    if outcome.RegisteredAndLoggedIn? then registry + [outcome.user] else registry
  }

  /** The active user once the outcome is applied: a rejection changes nothing. */
  function SessionAfter(session: Option<User>, outcome: Outcome): (r: Option<User>)
    ensures outcome.Rejected? ==> r == session
    ensures !outcome.Rejected? ==> r.Some? && r.value == outcome.user
  {
    if outcome.Rejected? then session else Some(outcome.user)
  }

  /** A rejected submission leaves the registry and the session as they were. */
  lemma RejectionChangesNothing(form: Form, registry: seq<User>, session: Option<User>, freshId: string)
    requires Submit(form, registry, freshId).Rejected?
    ensures RegistryAfter(registry, Submit(form, registry, freshId)) == registry
    ensures SessionAfter(session, Submit(form, registry, freshId)) == session
  {
  }

  /**
   * Registration is the only way an account is added, and it refuses a phone
   * already present, so distinct phones stay distinct.
   */
  lemma SubmitKeepsPhonesDistinct(form: Form, registry: seq<User>, freshId: string)
    requires DistinctPhones(registry)
    ensures DistinctPhones(RegistryAfter(registry, Submit(form, registry, freshId)))
  {
    var outcome := Submit(form, registry, freshId);
    if outcome.RegisteredAndLoggedIn? {
      var r := registry + [outcome.user];
      forall i, j | 0 <= i < j < |r|
        ensures r[i].phone != r[j].phone
      {
        assert r[i] == registry[i];
        if j < |registry| {
          assert r[j] == registry[j];
        } else {
          assert r[j].phone == form.phone;
          assert !PhoneRegistered(registry, form.phone);
        }
      }
    }
  }

  /** With distinct phones, a successful barber login finds the one account with that phone. */
  lemma LoginFindsTheAccount(form: Form, registry: seq<User>, freshId: string, i: nat)
    requires DistinctPhones(registry)
    requires form.role == Barber && form.mode == LoginMode
    requires i < |registry| && CredentialsMatch(registry[i], form.phone, form.password)
    ensures Submit(form, registry, freshId) == LoggedIn(registry[i])
  {
    var k := FindIndex(registry, HasCredentials(form.phone, form.password));
    assert HasCredentials(form.phone, form.password)(registry[i]);
    assert k != -1;
  }
}
