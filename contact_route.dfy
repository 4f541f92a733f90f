/**
 * app/api/contact/route.ts: the POST handler of the contact endpoint. It
 * checks that name, email, subject and message are all truthy, checks the
 * email against /^[^\s@]+@[^\s@]+\.[^\s@]+$/, builds a record from the body
 * plus an id and a timestamp, loads the stored array (a missing or
 * unparseable file counts as empty), appends the record, overwrites the
 * file, and answers 400, 201 or 500.
 *
 * The store file is the field `store` of ContactEndpoint; its contents are
 * what JSON.parse would make of the file. The clock supplies id and
 * timestamp as parameters, and whether the write fails is an input.
 */
module ContactRoute {
  import opened Wrappers
  import opened JsText

  const MissingFieldsError := "Name, email, subject, and message are required fields"
  const InvalidEmailError := "Please provide a valid email address"
  const SuccessMessage := "Contact form submitted successfully"
  const ServerError := "Failed to process your request. Please try again later."

  /** The result of `await request.json()`. A field is None when it is undefined or null. */
  datatype RequestBody =
    | Unparseable    // request.json() rejects
    | JsonNull       // the body is the JSON literal null, so reading `body.name` throws
    | NonObject      // a number, string, boolean or array: every field reads as undefined
    | Object(name: Option<string>, email: Option<string>, subject: Option<string>, message: Option<string>,
             others: map<string, string>)  // the body's other members

  /** A stored submission: the spread body with `id` and `timestamp` written after it. */
  datatype StoredContact = StoredContact(
    name: string, email: string, subject: string, message: string,
    id: string, timestamp: string,
    others: map<string, string>)

  /** What reading and parsing contacts.json yields. */
  datatype Store =
    | Missing                             // readFile rejects
    | Corrupt                             // JSON.parse throws
    | NonArray                            // well-formed JSON that is not an array, so `push` throws
    | Records(contacts: seq<StoredContact>)

  datatype ResponseBody = ErrorBody(error: string) | SuccessBody(success: bool, message: string)

  datatype Response = Response(status: int, body: ResponseBody)

  /** The response and the store a request leaves behind. */
  datatype Outcome = Outcome(response: Response, store: Store)

  /** JavaScript truthiness of a field expected to hold a string: present and not empty. */
  predicate Truthy(field: Option<string>)
    ensures Truthy(field) <==> field.GetOr("") != ""
  {
    field.Some? && field.value != ""
  }

  /** The presence check: the body is an object whose four fields are all truthy. */
  predicate HasRequiredFields(body: RequestBody)
    ensures HasRequiredFields(body) <==>
      body.Object? && "" !in {body.name.GetOr(""), body.email.GetOr(""), body.subject.GetOr(""), body.message.GetOr("")}
  {
    body.Object? && Truthy(body.name) && Truthy(body.email) && Truthy(body.subject) && Truthy(body.message)
  }

  // ---------------------------------------------------------------- email

  /** A member of the class [^\s@]. */
  predicate EmailChar(c: char) {
    !IsWhitespace(c) && c != '@'
  }

  /** A string matching [^\s@]+. */
  predicate EmailRun(s: string) {
    |s| > 0 && forall k :: 0 <= k < |s| ==> EmailChar(s[k])
  }

  /** The literal reading of /^[^\s@]+@[^\s@]+\.[^\s@]+$/: run, '@', run, '.', run, and nothing else. */
  ghost predicate MatchesEmailPattern(s: string)
    ensures MatchesEmailPattern(s) ==> 5 <= |s| && '@' in s && '.' in s
  {
    exists at, dot :: 0 <= at < dot < |s| && s[at] == '@' && s[dot] == '.' &&
      EmailRun(s[..at]) && EmailRun(s[at + 1..dot]) && EmailRun(s[dot + 1..])
  }

  predicate NoWhitespace(s: string) {
    forall k :: 0 <= k < |s| ==> !IsWhitespace(s[k])
  }

  /**
   * `emailRegex.test(email)`: no whitespace, exactly one '@' with something
   * before it, and after it a '.' that is neither first nor last.
   */
  predicate IsValidEmail(s: string)
    ensures IsValidEmail(s) ==> 5 <= |s| && '@' in s && s[|s| - 1] != '@'
  {
    NoWhitespace(s) &&
    match IndexOf(s, '@')
    case None => false
    case Some(at) =>
      && at > 0
      && (forall k :: at < k < |s| ==> s[k] != '@')
      && (exists dot :: at + 1 < dot < |s| - 1 && s[dot] == '.')
  }

  /** Every character of s[lo..hi] is in [^\s@]. */
  predicate EmailCharsBetween(s: string, lo: int, hi: int)
    requires 0 <= lo <= hi <= |s|
  {
    forall k :: lo <= k < hi ==> EmailChar(s[k])
  }

  /** A slice is a run of [^\s@] exactly when it is non-empty and its characters qualify. */
  lemma RunIsSlice(s: string, lo: int, hi: int)
    requires 0 <= lo <= hi <= |s|
    ensures EmailRun(s[lo..hi]) <==> lo < hi && EmailCharsBetween(s, lo, hi)
  {
    if lo < hi && EmailCharsBetween(s, lo, hi) {
      forall k | 0 <= k < hi - lo ensures EmailChar(s[lo..hi][k]) {
        assert s[lo..hi][k] == s[lo + k];
      }
    }
    if EmailRun(s[lo..hi]) {
      forall k | lo <= k < hi ensures EmailChar(s[k]) {
        assert s[k] == s[lo..hi][k - lo];
      }
    }
  }

  /** The characters around the '@' and the '.' of a match: no whitespace anywhere, and no other '@'. */
  lemma MatchCharacters(s: string, at: int, dot: int)
    requires 0 <= at < dot < |s| && s[at] == '@' && s[dot] == '.'
    requires EmailRun(s[..at]) && EmailRun(s[at + 1..dot]) && EmailRun(s[dot + 1..])
    ensures NoWhitespace(s)
    ensures '@' !in s[..at]
    ensures forall k :: at < k < |s| ==> s[k] != '@'
  {
    RunIsSlice(s, 0, at);
    RunIsSlice(s, at + 1, dot);
    RunIsSlice(s, dot + 1, |s|);
    assert s[..at] == s[0..at] && s[dot + 1..] == s[dot + 1..|s|];
    assert forall k :: 0 <= k < |s| && k != at && k != dot ==> EmailChar(s[k]);
    forall j | 0 <= j < at ensures s[..at][j] != '@' { assert s[..at][j] == s[j]; }
  }

  /** A string the regular expression matches passes the direct check. */
  lemma PatternPassesCheck(s: string)
    requires MatchesEmailPattern(s)
    ensures IsValidEmail(s)
  {
    var at, dot :| 0 <= at < dot < |s| && s[at] == '@' && s[dot] == '.' &&
      EmailRun(s[..at]) && EmailRun(s[at + 1..dot]) && EmailRun(s[dot + 1..]);
    MatchCharacters(s, at, dot);
    FirstOccurrence(s, '@', at);
    assert at > 0 && at + 1 < dot < |s| - 1;
    ValidEmailIntro(s, at, dot);
  }

  /** A string that passes the direct check is matched by the regular expression. */
  lemma CheckPassesPattern(s: string)
    requires IsValidEmail(s)
    ensures MatchesEmailPattern(s)
  {
    var at := IndexOf(s, '@').value;
    var dot :| at + 1 < dot < |s| - 1 && s[dot] == '.';
    forall j | 0 <= j < at ensures s[j] != '@' { assert s[j] == s[..at][j]; }
    assert EmailCharsBetween(s, 0, at);
    assert EmailCharsBetween(s, at + 1, dot);
    assert EmailCharsBetween(s, dot + 1, |s|);
    RunIsSlice(s, 0, at);
    RunIsSlice(s, at + 1, dot);
    RunIsSlice(s, dot + 1, |s|);
    assert s[..at] == s[0..at] && s[dot + 1..] == s[dot + 1..|s|];
  }

  /** The direct check accepts exactly the strings the regular expression matches. */
  lemma EmailCheckMatchesPattern(s: string)
    ensures IsValidEmail(s) <==> MatchesEmailPattern(s)
  {
    if IsValidEmail(s) { CheckPassesPattern(s); }
    if MatchesEmailPattern(s) { PatternPassesCheck(s); }
  }

  /** The email check passes when its three parts are shown separately. */
  lemma ValidEmailIntro(s: string, at: nat, dot: int)
    requires NoWhitespace(s) && IndexOf(s, '@') == Some(at) && at > 0
    requires forall k :: at < k < |s| ==> s[k] != '@'
    requires at + 1 < dot < |s| - 1 && s[dot] == '.'
    ensures IsValidEmail(s)
  {
  }

  /** "ann@x.com" holds no whitespace. */
  lemma ExampleEmailHasNoWhitespace()
    ensures NoWhitespace("ann@x.com")
  {
    var ann := "ann@x.com";
    forall k | 0 <= k < |ann| ensures !IsWhitespace(ann[k]) {
      assert '!' <= ann[k] <= '~';
    }
  }

  /** The only '@' of "ann@x.com" is its fourth character. */
  lemma ExampleEmailAt()
    ensures IndexOf("ann@x.com", '@') == Some(3)
    ensures forall k :: 3 < k < |"ann@x.com"| ==> "ann@x.com"[k] != '@'
  {
    var ann := "ann@x.com";
    assert ann[..3] == "ann";
    FirstOccurrence(ann, '@', 3);
  }

  /** "ann@x.com" passes the email check. */
  lemma AcceptsExampleEmail()
    ensures IsValidEmail("ann@x.com")
  {
    ExampleEmailHasNoWhitespace();
    ExampleEmailAt();
    ValidEmailIntro("ann@x.com", 3, 5);
  }

  /** "not-an-email" fails the email check: it holds no '@'. */
  lemma RejectsExampleNonEmail()
    ensures !IsValidEmail("not-an-email")
  {
    var s := "not-an-email";
    assert forall k :: 0 <= k < |s| ==> s[k] != '@';
    assert IndexOf(s, '@') == None;
  }

  // ---------------------------------------------------------------- the handler

  /** Body members that the record's own fields replace when the body is spread. */
  const ReservedKeys: set<string> := {"name", "email", "subject", "message", "id", "timestamp"}

  /** `{...body, id, timestamp}` for a body that passed the presence check. */
  function NewRecord(body: RequestBody, id: string, timestamp: string): (r: StoredContact)
    requires HasRequiredFields(body)
    ensures r.name == body.name.value && r.email == body.email.value
    ensures r.subject == body.subject.value && r.message == body.message.value
    ensures r.id == id && r.timestamp == timestamp
    ensures r.others.Keys == body.others.Keys - ReservedKeys
    ensures forall k :: k in r.others ==> r.others[k] == body.others[k]
  {
    StoredContact(body.name.value, body.email.value, body.subject.value, body.message.value,
                  id, timestamp, body.others - ReservedKeys)
  }

  /** The array the handler starts from: a missing or unparseable file is empty; None when `push` would throw. */
  function LoadContacts(store: Store): (r: Option<seq<StoredContact>>)
    ensures store.Missing? || store.Corrupt? ==> r == Some([])
    ensures r.None? <==> store.NonArray?
    ensures store.Records? ==> r == Some(store.contacts)
  {
    match store
    case Missing => Some([])
    case Corrupt => Some([])
    case NonArray => None
    case Records(contacts) => Some(contacts)
  }

  function ServerFailure(): Response {
    Response(500, ErrorBody(ServerError))
  }

  /** The request validates: every field present and a well-formed email. */
  predicate Accepted(body: RequestBody) {
    HasRequiredFields(body) && IsValidEmail(body.email.value)
  }

  /** What POST answers and what it leaves in the store, for a request body, the stored file, the clock's id and timestamp, and whether writing fails. */
  function Handle(body: RequestBody, store: Store, id: string, timestamp: string, writeFails: bool): (r: Outcome)
    ensures r.response.status in {201, 400, 500}
    ensures r.response.status == 201 <==> Accepted(body) && !store.NonArray? && !writeFails
    ensures r.response.status == 400 <==> !body.Unparseable? && !body.JsonNull? && !Accepted(body)
    ensures r.response.status == 400 ==>
      r.response.body == ErrorBody(if HasRequiredFields(body) then InvalidEmailError else MissingFieldsError)
    ensures r.response.status == 201 ==> r.response.body == SuccessBody(true, SuccessMessage)
    ensures r.response.status == 500 ==> r.response.body == ErrorBody(ServerError)
    ensures r.response.status != 201 ==> r.store == store
    ensures r.response.status == 201 ==>
      r.store.Records? && |r.store.contacts| >= 1 &&
      r.store.contacts[..|r.store.contacts| - 1] == LoadContacts(store).value &&
      r.store.contacts[|r.store.contacts| - 1] == NewRecord(body, id, timestamp)
  {
    if body.Unparseable? || body.JsonNull? then Outcome(ServerFailure(), store)
    else if !HasRequiredFields(body) then Outcome(Response(400, ErrorBody(MissingFieldsError)), store)
    else if !IsValidEmail(body.email.value) then Outcome(Response(400, ErrorBody(InvalidEmailError)), store)
    else
      var record := NewRecord(body, id, timestamp);
      match LoadContacts(store)
      case None => Outcome(ServerFailure(), store)
      case Some(contacts) =>
        if writeFails then Outcome(ServerFailure(), store)
        else Outcome(Response(201, SuccessBody(true, SuccessMessage)), Records(contacts + [record]))
  }

  /** The presence check comes first: a body missing a field is refused for that, whatever its email. */
  lemma MissingFieldReportedBeforeBadEmail(body: RequestBody, store: Store, id: string, timestamp: string, writeFails: bool)
    requires !HasRequiredFields(body) && body.Object? && body.email.Some? && !IsValidEmail(body.email.value)
    ensures Handle(body, store, id, timestamp, writeFails) == Outcome(Response(400, ErrorBody(MissingFieldsError)), store)
  {
  }

  /** With no file, or an unparseable one, an accepted submission that is written leaves exactly that one record. */
  lemma FreshStoreHoldsOneRecord(body: RequestBody, store: Store, id: string, timestamp: string)
    requires Accepted(body) && (store.Missing? || store.Corrupt?)
    ensures Handle(body, store, id, timestamp, false).store == Records([NewRecord(body, id, timestamp)])
  {
  }

  /** Submitting the same body twice stores two records, one per call, in arrival order. */
  lemma ResubmissionAppendsAgain(body: RequestBody, contacts: seq<StoredContact>,
                                                    id1: string, ts1: string, id2: string, ts2: string)
    requires Accepted(body)
    ensures var first := Handle(body, Records(contacts), id1, ts1, false).store;
      Handle(body, first, id2, ts2, false).store ==
        Records(contacts + [NewRecord(body, id1, ts1), NewRecord(body, id2, ts2)])
  {
    assert contacts + [NewRecord(body, id1, ts1)] + [NewRecord(body, id2, ts2)] ==
      contacts + [NewRecord(body, id1, ts1), NewRecord(body, id2, ts2)];
  }

  /** An accepted body sent to a stored array, with the write succeeding, is answered 201 and appended as its record. */
  lemma AcceptedIsAppended(body: RequestBody, contacts: seq<StoredContact>, id: string, timestamp: string)
    requires Accepted(body)
    ensures Handle(body, Records(contacts), id, timestamp, false) ==
      Outcome(Response(201, SuccessBody(true, SuccessMessage)), Records(contacts + [NewRecord(body, id, timestamp)]))
  {
  }

  /** Ann's well-formed message is answered with 201 and appended to the stored records. */
  lemma ExampleAccepted(contacts: seq<StoredContact>, id: string, timestamp: string)
    ensures var ann := Object(Some("Ann"), Some("ann@x.com"), Some("Hi"), Some("Hello"), map[]);
      Handle(ann, Records(contacts), id, timestamp, false) ==
        Outcome(Response(201, SuccessBody(true, SuccessMessage)),
                Records(contacts + [StoredContact("Ann", "ann@x.com", "Hi", "Hello", id, timestamp, map[])]))
  {
    var ann := Object(Some("Ann"), Some("ann@x.com"), Some("Hi"), Some("Hello"), map[]);
    AcceptsExampleEmail();
    assert Accepted(ann);
    AcceptedIsAppended(ann, contacts, id, timestamp);
    var none: map<string, string> := map[];
    assert none - ReservedKeys == none;
    assert NewRecord(ann, id, timestamp) == StoredContact("Ann", "ann@x.com", "Hi", "Hello", id, timestamp, map[]);
  }

  /** An empty name is refused with the missing-field error and the store is left alone. */
  lemma ExampleEmptyName(store: Store, id: string, timestamp: string)
    ensures var noName := Object(Some(""), Some("ann@x.com"), Some("Hi"), Some("Hello"), map[]);
      Handle(noName, store, id, timestamp, false) == Outcome(Response(400, ErrorBody(MissingFieldsError)), store)
  {
  }

  /** A malformed email is refused with the invalid-email error and the store is left alone. */
  lemma ExampleBadEmail(store: Store, id: string, timestamp: string)
    ensures var badEmail := Object(Some("Ann"), Some("not-an-email"), Some("Hi"), Some("Hello"), map[]);
      Handle(badEmail, store, id, timestamp, false) == Outcome(Response(400, ErrorBody(InvalidEmailError)), store)
  {
    RejectsExampleNonEmail();
  }

  /** The endpoint together with the file it owns. */
  class ContactEndpoint {
    var store: Store

    constructor (initial: Store)
      ensures store == initial
    {
      store := initial;
    }

    /** `POST(request)`: the early-return steps of the handler, overwriting the store only on success. */
    method Post(body: RequestBody, id: string, timestamp: string, writeFails: bool) returns (response: Response)
      modifies this
      ensures Outcome(response, store) == Handle(body, old(store), id, timestamp, writeFails)
    {
      if body.Unparseable? || body.JsonNull? {
        return ServerFailure();
      }
      if !HasRequiredFields(body) {
        return Response(400, ErrorBody(MissingFieldsError));
      }
      if !IsValidEmail(body.email.value) {
        return Response(400, ErrorBody(InvalidEmailError));
      }
      var contactData := StoredContact(body.name.value, body.email.value, body.subject.value, body.message.value,
                                       id, timestamp, body.others - ReservedKeys);
      var contacts: seq<StoredContact> := [];
      match store {
        case Records(existing) =>
          contacts := existing;
        case NonArray =>
          return ServerFailure();
        case Missing =>
          contacts := [];
        case Corrupt =>
          contacts := [];
      }
      contacts := contacts + [contactData];
      if writeFails {
        return ServerFailure();
      }
      store := Records(contacts);
      response := Response(201, SuccessBody(true, SuccessMessage));
    }
  }
}
