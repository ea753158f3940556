/**
 * The mock admin panel: a login gate with one hard-coded credential pair,
 * a list of FAQs and a list of news items that the logged-in admin can
 * extend through two draft forms and prune by id.
 */
module Admin {
  import opened Wrappers
  import NewsEvents

  datatype Faq = Faq(id: string, question: string, answer: string, category: string)

  /** A news record as the panel keeps it; its date stays the "YYYY-MM-DD" text the form held. */
  datatype NewsEvent = NewsEvent(
    id: string,
    title: string,
    description: string,
    date: string,
    time: Option<string>,
    location: Option<string>,
    itemType: NewsEvents.ItemType,
    priority: NewsEvents.Priority)

  datatype LoginForm = LoginForm(username: string, password: string)

  datatype FaqDraft = FaqDraft(question: string, answer: string, category: string)

  /** The news form: optional fields are plain text, "" when left blank. */
  datatype NewsDraft = NewsDraft(
    title: string,
    description: string,
    date: string,
    time: string,
    location: string,
    itemType: NewsEvents.ItemType,
    priority: NewsEvents.Priority)

  const EmptyLogin := LoginForm("", "")
  const EmptyFaqDraft := FaqDraft("", "", "academic")
  const EmptyNewsDraft := NewsDraft("", "", "", "", "", NewsEvents.News, NewsEvents.Medium)

  const InitialFaqs: seq<Faq> := [
    Faq("1", "What are the class timings?",
      "Classes run from 9:00 AM to 4:00 PM, Monday to Friday.", "academic"),
    Faq("2", "How do I apply for hostel?",
      "Contact the hostel warden for room allotment and application process.", "facilities")
  ]

  const InitialNews: seq<NewsEvent> := [
    NewsEvent("1", "Annual Tech Fest 2024", "Join us for the biggest technical festival.",
      "2024-12-15", None, None, NewsEvents.Event, NewsEvents.High)
  ]

  /** The mock authentication: a plain comparison with the demo pair. */
  predicate ValidCredentials(f: LoginForm) {
    f.username == "admin" && f.password == "admin123"
  }

  /** A FAQ draft passes the guard when its question and answer are non-empty strings. */
  predicate FaqDraftComplete(d: FaqDraft) {
    d.question != "" && d.answer != ""
  }

  /** A news draft passes the guard when its title, description and date are non-empty. */
  predicate NewsDraftComplete(d: NewsDraft) {
    d.title != "" && d.description != "" && d.date != ""
  }

  /** `text || undefined`: a blank optional field is dropped, any other text is kept as it is. */
  function OptionalText(text: string): Option<string> {
    if text == "" then None else Some(text)
  }

  /** `{ id, ...newFaq }`. */
  function FaqOf(id: string, d: FaqDraft): Faq {
    Faq(id, d.question, d.answer, d.category)
  }

  /** `{ id, ...newNewsEvent, time: time || undefined, location: location || undefined }`. */
  function NewsEventOf(id: string, d: NewsDraft): (e: NewsEvent)
    ensures e.time == None <==> d.time == ""
    ensures e.location == None <==> d.location == ""
  {
    NewsEvent(id, d.title, d.description, d.date, OptionalText(d.time), OptionalText(d.location),
      d.itemType, d.priority)
  }

  /** An optional field as the form shows it: absent is blank. */
  function TextOf(o: Option<string>): string {
    if o.None? then "" else o.value
  }

  /** The news form holding a record's fields, the inverse of `NewsEventOf`. */
  function DraftOf(e: NewsEvent): NewsDraft {
    NewsDraft(e.title, e.description, e.date, TextOf(e.time), TextOf(e.location), e.itemType, e.priority)
  }

  /** A news record keeps the id and every field of the draft it was made from: the draft can be read back. */
  lemma NewsEventOfKeepsDraft(id: string, d: NewsDraft)
    ensures NewsEventOf(id, d).id == id && DraftOf(NewsEventOf(id, d)) == d
  {
  }

  /** A record whose optional fields are absent or non-blank is rebuilt exactly from its own draft. */
  lemma DraftOfRoundTrip(e: NewsEvent)
    requires e.time != Some("") && e.location != Some("")
    ensures NewsEventOf(e.id, DraftOf(e)) == e
  {
  }

  function FaqId(f: Faq): string { f.id }
  function NewsId(e: NewsEvent): string { e.id }

  /** `list.filter(x => idOf(x) !== id)`. */
  function Without<T(==)>(s: seq<T>, idOf: T -> string, id: string): (r: seq<T>)
    ensures |r| <= |s|
    decreases |s|
  {
    if s == [] then []
    else (if idOf(s[0]) != id then [s[0]] else []) + Without(s[1..], idOf, id)
  }

  /** The filter keeps exactly the items whose id differs from `id`. */
  lemma {:induction false} WithoutMembers<T(!new)>(s: seq<T>, idOf: T -> string, id: string)
    ensures forall x :: x in Without(s, idOf, id) <==> x in s && idOf(x) != id
    decreases |s|
  {
    if s != [] {
      WithoutMembers(s[1..], idOf, id);
      assert forall x :: x in s <==> x == s[0] || x in s[1..];
    }
  }

  /** `a` can be read off `b` by skipping some of its elements. */
  ghost predicate SubsequenceOf<T>(a: seq<T>, b: seq<T>)
    decreases |b|
  {
    a == [] || (b != [] && if a[0] == b[0] then SubsequenceOf(a[1..], b[1..]) else SubsequenceOf(a, b[1..]))
  }

  /** Putting one more element in front of `b` keeps `a` a subsequence of it. */
  lemma {:induction false} SubsequenceOfCons<T>(a: seq<T>, b: seq<T>, x: T)
    requires SubsequenceOf(a, b)
    ensures SubsequenceOf(a, [x] + b)
    decreases |b|, 1
  {
    assert ([x] + b)[1..] == b;
    if a != [] && a[0] == x {
      SubsequenceOfTail(a, b);
    }
  }

  /** Dropping the first element of a nonempty subsequence keeps it a subsequence. */
  lemma {:induction false} SubsequenceOfTail<T>(a: seq<T>, b: seq<T>)
    requires a != [] && SubsequenceOf(a, b)
    ensures SubsequenceOf(a[1..], b)
    decreases |b|, 0
  {
    assert [b[0]] + b[1..] == b;
    if a[0] != b[0] {
      SubsequenceOfTail(a, b[1..]);
    }
    SubsequenceOfCons(a[1..], b[1..], b[0]);
  }

  /** The filter keeps the remaining items in their original relative order. */
  lemma {:induction false} WithoutKeepsOrder<T(!new)>(s: seq<T>, idOf: T -> string, id: string)
    ensures SubsequenceOf(Without(s, idOf, id), s)
    decreases |s|
  {
    if s != [] {
      WithoutKeepsOrder(s[1..], idOf, id);
      var rest := Without(s[1..], idOf, id);
      if idOf(s[0]) != id {
        assert Without(s, idOf, id) == [s[0]] + rest;
        assert ([s[0]] + rest)[1..] == rest;
      } else {
        assert Without(s, idOf, id) == rest;
        SubsequenceOfCons(rest, s[1..], s[0]);
        assert [s[0]] + s[1..] == s;
      }
    }
  }

  /** Deleting an id nobody carries leaves the list as it was. */
  lemma {:induction false} WithoutAbsent<T(!new)>(s: seq<T>, idOf: T -> string, id: string)
    requires forall k | 0 <= k < |s| :: idOf(s[k]) != id
    ensures Without(s, idOf, id) == s
    decreases |s|
  {
    if s != [] {
      WithoutAbsent(s[1..], idOf, id);
      assert [s[0]] + s[1..] == s;
    }
  }

  /** Deleting the same id twice is deleting it once. */
  lemma WithoutIdempotent<T(!new)>(s: seq<T>, idOf: T -> string, id: string)
    ensures Without(Without(s, idOf, id), idOf, id) == Without(s, idOf, id)
  {
    var r := Without(s, idOf, id);
    forall k | 0 <= k < |r|
      ensures idOf(r[k]) != id
    {
      WithoutMembers(s, idOf, id);
      assert r[k] in r;
    }
    WithoutAbsent(r, idOf, id);
  }

  /** The filter works piecewise: deleting from a concatenation deletes from each part. */
  lemma {:induction false} WithoutAppend<T(!new)>(a: seq<T>, b: seq<T>, idOf: T -> string, id: string)
    ensures Without(a + b, idOf, id) == Without(a, idOf, id) + Without(b, idOf, id)
    decreases |a|
  {
    if a != [] {
      WithoutAppend(a[1..], b, idOf, id);
      var head := if idOf(a[0]) != id then [a[0]] else [];
      assert (a + b)[0] == a[0] && (a + b)[1..] == a[1..] + b;
      assert Without(a + b, idOf, id) == head + Without(a[1..] + b, idOf, id);
      assert Without(a, idOf, id) == head + Without(a[1..], idOf, id);
    } else {
      assert a + b == b;
    }
  }

  /** Deleting the id of an item just appended under a fresh id undoes the append. */
  lemma AddThenDelete<T(!new)>(s: seq<T>, x: T, idOf: T -> string)
    requires forall k | 0 <= k < |s| :: idOf(s[k]) != idOf(x)
    ensures Without(s + [x], idOf, idOf(x)) == s
  {
    WithoutAppend(s, [x], idOf, idOf(x));
    WithoutAbsent(s, idOf, idOf(x));
    assert Without([x], idOf, idOf(x)) == [] + Without([], idOf, idOf(x));
  }

  /** A snapshot of every field of the panel. */
  datatype AdminState = AdminState(
    isLoggedIn: bool,
    loginForm: LoginForm,
    faqs: seq<Faq>,
    newsEvents: seq<NewsEvent>,
    newFaq: FaqDraft,
    newNewsEvent: NewsDraft)

  const InitialState := AdminState(false, EmptyLogin, InitialFaqs, InitialNews, EmptyFaqDraft, EmptyNewsDraft)

  /**
   * The panel's state. The three handlers that can fail (login, add FAQ, add
   * news item) return `ok`, the success or error outcome their toast reports;
   * logout and the two deletes always succeed and return nothing.
   */
  class AdminStore {
    var isLoggedIn: bool
    var loginForm: LoginForm
    var faqs: seq<Faq>
    var newsEvents: seq<NewsEvent>
    var newFaq: FaqDraft
    var newNewsEvent: NewsDraft

    function State(): AdminState
      reads this
    {
      AdminState(isLoggedIn, loginForm, faqs, newsEvents, newFaq, newNewsEvent)
    }

    /** Logged out, the two seed FAQs, the one seed news item, and blank forms. */
    constructor ()
      ensures State() == InitialState
      ensures !isLoggedIn && |faqs| == 2 && |newsEvents| == 1
    {
      isLoggedIn := false;
      loginForm := EmptyLogin;
      faqs := InitialFaqs;
      newsEvents := InitialNews;
      newFaq := EmptyFaqDraft;
      newNewsEvent := EmptyNewsDraft;
    }

    /** Typing into the login fields. */
    method EditLogin(form: LoginForm)
      modifies this
      ensures State() == old(State()).(loginForm := form)
    {
      loginForm := form;
    }

    /** Typing into the FAQ form or picking its category. */
    method EditFaqDraft(draft: FaqDraft)
      modifies this
      ensures State() == old(State()).(newFaq := draft)
    {
      newFaq := draft;
    }

    /** Typing into the news form or picking its type or priority. */
    method EditNewsDraft(draft: NewsDraft)
      modifies this
      ensures State() == old(State()).(newNewsEvent := draft)
    {
      newNewsEvent := draft;
    }

    /** `handleLogin`: logs in on the demo pair; on anything else no field changes. */
    method Login() returns (ok: bool)
      modifies this
      ensures ok <==> ValidCredentials(old(loginForm))
      ensures ok ==> State() == old(State()).(isLoggedIn := true)
      ensures !ok ==> State() == old(State())
    {
      ok := ValidCredentials(loginForm);
      if ok {
        isLoggedIn := true;
      }
    }

    /** `handleLogout`: logs out and blanks both login fields. */
    method Logout()
      modifies this
      ensures State() == old(State()).(isLoggedIn := false, loginForm := EmptyLogin)
    {
      isLoggedIn := false;
      loginForm := EmptyLogin;
    }

    /**
     * `addFaq`: with a non-empty question and answer, appends a FAQ made from
     * the draft under the id `id` (the source takes it from the clock) and
     * blanks the form; otherwise nothing changes.
     */
    method AddFaq(id: string) returns (ok: bool)
      modifies this
      ensures ok <==> FaqDraftComplete(old(newFaq))
      ensures ok ==> State() == old(State()).(
        faqs := old(faqs) + [FaqOf(id, old(newFaq))],
        newFaq := EmptyFaqDraft)
      ensures !ok ==> State() == old(State())
    {
      if !FaqDraftComplete(newFaq) {
        return false;
      }
      var faq := FaqOf(id, newFaq);
      faqs := faqs + [faq];
      newFaq := EmptyFaqDraft;
      ok := true;
    }

    /**
     * `addNewsEvent`: with a non-empty title, description and date, appends a
     * record made from the draft, blank time and location becoming absent,
     * and resets the form to a blank news item of medium priority; otherwise
     * nothing changes.
     */
    method AddNewsEvent(id: string) returns (ok: bool)
      modifies this
      ensures ok <==> NewsDraftComplete(old(newNewsEvent))
      ensures ok ==> State() == old(State()).(
        newsEvents := old(newsEvents) + [NewsEventOf(id, old(newNewsEvent))],
        newNewsEvent := EmptyNewsDraft)
      ensures !ok ==> State() == old(State())
    {
      if !NewsDraftComplete(newNewsEvent) {
        return false;
      }
      var item := NewsEventOf(id, newNewsEvent);
      newsEvents := newsEvents + [item];
      newNewsEvent := EmptyNewsDraft;
      ok := true;
    }

    /** `deleteFaq`: drops every FAQ with that id; the news list and all else stay. */
    method DeleteFaq(id: string)
      modifies this
      ensures State() == old(State()).(faqs := Without(old(faqs), FaqId, id))
      ensures forall f :: f in faqs <==> f in old(faqs) && f.id != id
    {
      WithoutMembers(faqs, FaqId, id);
      faqs := Without(faqs, FaqId, id);
    }

    /** `deleteNewsEvent`: drops every news record with that id; the FAQ list and all else stay. */
    method DeleteNewsEvent(id: string)
      modifies this
      ensures State() == old(State()).(newsEvents := Without(old(newsEvents), NewsId, id))
      ensures forall e :: e in newsEvents <==> e in old(newsEvents) && e.id != id
    {
      WithoutMembers(newsEvents, NewsId, id);
      newsEvents := Without(newsEvents, NewsId, id);
    }
  }
}
