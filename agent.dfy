/**
 * The chat endpoint of the booking assistant (src/app/api/agent/route.ts):
 * which details are still missing for a booking and how they are asked for,
 * the booking gate in front of the store, the fixed-priority choice of a
 * reply for the latest user message, and the request handler tying them
 * together.
 *
 * Reply wording that only formats data (menus, dates, bullet lists) is not
 * modelled; a reply is represented by the branch that produced it and the
 * data it carries.
 */
module Agent {
  import opened Base
  import opened Text
  import opened Catalog
  import opened Schedule
  import opened Intent

  // ---------------------------------------------------------------- missing details

  /** The four details a booking needs, in the order they are asked for. */
  datatype Field = ServiceField | DateTimeField | NameField | EmailField

  function Rank(f: Field): nat
  {
    match f
    case ServiceField => 0
    case DateTimeField => 1
    case NameField => 2
    case EmailField => 3
  }

  /** The phrase used to ask for each detail. */
  function FieldPhrase(f: Field): string
  {
    match f
    case ServiceField => "which service you'd like"
    case DateTimeField => "the date and time that work"
    case NameField => "your name"
    case EmailField => "an email for confirmation"
  }

  /** JavaScript truthiness of an optional string: present and not empty. */
  predicate Present(o: Option<string>)
  {
    o.Some? && o.value != ""
  }

  /** Whether detail `f` is still missing. */
  predicate Unresolved(f: Field, name: Option<string>, email: Option<string>,
                       service: Option<Service>, desiredStart: Option<int>)
  {
    match f
    case ServiceField => service.None?
    case DateTimeField => desiredStart.None?
    case NameField => !Present(name)
    case EmailField => !Present(email)
  }

  /** The gate of `handleBookingIntent`: every detail is known. */
  predicate AllResolved(name: Option<string>, email: Option<string>,
                        service: Option<Service>, desiredStart: Option<int>)
  {
    service.Some? && desiredStart.Some? && Present(name) && Present(email)
  }

  /** Nothing is missing exactly when the booking gate opens. */
  lemma ResolvedIffNoneMissing(name: Option<string>, email: Option<string>,
                               service: Option<Service>, desiredStart: Option<int>)
    ensures AllResolved(name, email, service, desiredStart) <==>
      forall f: Field :: !Unresolved(f, name, email, service, desiredStart)
  {
    if !AllResolved(name, email, service, desiredStart) {
      if service.None? {
        assert Unresolved(ServiceField, name, email, service, desiredStart);
      } else if desiredStart.None? {
        assert Unresolved(DateTimeField, name, email, service, desiredStart);
      } else if !Present(name) {
        assert Unresolved(NameField, name, email, service, desiredStart);
      } else {
        assert Unresolved(EmailField, name, email, service, desiredStart);
      }
    }
  }

  /**
   * The `needs` list of `contextualBookingReply`: exactly the missing details,
   * each once, in the fixed order service, date and time, name, email.
   */
  method MissingFields(name: Option<string>, email: Option<string>,
                       service: Option<Service>, desiredStart: Option<int>)
    returns (needs: seq<Field>)
    ensures forall f :: f in needs <==> Unresolved(f, name, email, service, desiredStart)
    ensures forall i, j :: 0 <= i < j < |needs| ==> Rank(needs[i]) < Rank(needs[j])
    ensures |needs| == 0 <==> AllResolved(name, email, service, desiredStart)
  {
    needs := [];
    if service.None? {
      needs := needs + [ServiceField];
    }
    if desiredStart.None? {
      needs := needs + [DateTimeField];
    }
    if !Present(name) {
      needs := needs + [NameField];
    }
    if !Present(email) {
      needs := needs + [EmailField];
    }
    ResolvedIffNoneMissing(name, email, service, desiredStart);
    if |needs| == 0 {
      forall f: Field ensures !Unresolved(f, name, email, service, desiredStart) {
        assert f !in needs;
      }
    }
  }

  /** The request phrases of the missing details, in order; none of them holds a comma. */
  function Phrases(needs: seq<Field>): (r: seq<string>)
    ensures |r| == |needs|
    ensures forall k :: 0 <= k < |needs| ==> r[k] == FieldPhrase(needs[k])
    ensures forall k :: 0 <= k < |r| ==> ',' !in r[k]
  {
    var r := seq(|needs|, k requires 0 <= k < |needs| => FieldPhrase(needs[k]));
    assert forall k :: 0 <= k < |r| ==> ',' !in r[k] by {
      forall k | 0 <= k < |r| ensures ',' !in r[k] {
        PhraseCommaFree(needs[k]);
      }
    }
    r
  }

  // ---------------------------------------------------------------- "and" before the last item

  /** Index of the last comma in `s`, or -1 when there is none. */
  function LastComma(s: string): (r: int)
    ensures -1 <= r < |s|
    ensures r >= 0 ==> s[r] == ','
    ensures forall i :: r < i < |s| ==> s[i] != ','
  {
    if |s| == 0 then -1
    else if s[|s| - 1] == ',' then |s| - 1
    else LastComma(s[..|s| - 1])
  }

  /**
   * `s.replace(/, ([^,]*)$/, ", and $1")`: the only comma-space that can be
   * followed by comma-free text up to the end is the last comma, which
   * becomes ", and ".
   */
  function AddFinalAnd(s: string): string
  {
    var j := LastComma(s);
    if 0 <= j && j + 1 < |s| && s[j + 1] == ' ' then s[..j] + ", and " + s[j + 2..] else s
  }

  /** Joining with a separator, split off at the last part. */
  lemma {:induction false} JoinSnoc(parts: seq<string>, sep: string)
    requires |parts| >= 2
    ensures Join(parts, sep) == Join(parts[..|parts| - 1], sep) + sep + parts[|parts| - 1]
    decreases |parts|
  {
    if |parts| > 2 {
      JoinSnoc(parts[1..], sep);
      assert parts[1..][..|parts| - 2] == parts[..|parts| - 1][1..];
    } else {
      assert Join(parts[1..], sep) == parts[1];
    }
  }

  /** The comma-separated list of the missing-detail phrases, "and" before the last. */
  function NeededText(needs: seq<Field>): string
  {
    AddFinalAnd(Join(Phrases(needs), ", "))
  }

  /** A comma-free string has no last comma and is left unchanged by the "and" rewrite. */
  lemma AddFinalAndNoComma(s: string)
    requires ',' !in s
    ensures AddFinalAnd(s) == s
  {
  }

  /** The "and" rewrite of `front + ", " + last` with a comma-free `last`. */
  lemma AddFinalAndAtLast(front: string, last: string)
    requires ',' !in last
    ensures AddFinalAnd(front + ", " + last) == front + ", and " + last
  {
    var s := front + ", " + last;
    var n := |front|;
    assert s[n] == ',' && s[n + 1] == ' ';
    forall i | n + 1 < i < |s| ensures s[i] != ',' {
      assert s[i] == last[i - n - 2];
      assert last[i - n - 2] in last;
    }
    var j := LastComma(s);
    assert j == n;
    assert s[..n] == front;
    assert s[n + 2..] == last;
  }

  /**
   * For comma-free items the "and" rewrite yields an English list: one item
   * alone, or all but the last joined by ", " followed by ", and " and the
   * last item.
   */
  lemma AddFinalAndList(parts: seq<string>)
    requires |parts| >= 1
    requires forall k :: 0 <= k < |parts| ==> ',' !in parts[k]
    ensures |parts| == 1 ==> AddFinalAnd(Join(parts, ", ")) == parts[0]
    ensures |parts| >= 2 ==>
      AddFinalAnd(Join(parts, ", ")) ==
        Join(parts[..|parts| - 1], ", ") + ", and " + parts[|parts| - 1]
  {
    if |parts| == 1 {
      assert Join(parts, ", ") == parts[0];
      AddFinalAndNoComma(parts[0]);
    } else {
      JoinSnoc(parts, ", ");
      AddFinalAndAtLast(Join(parts[..|parts| - 1], ", "), parts[|parts| - 1]);
    }
  }

  /** No phrase contains a comma, so the "and" goes before the last phrase. */
  lemma PhraseCommaFree(f: Field)
    ensures ',' !in FieldPhrase(f)
  {
    match f
    case ServiceField => assert ',' !in "which service you'd like";
    case DateTimeField => assert ',' !in "the date and time that work";
    case NameField => assert ',' !in "your name";
    case EmailField => assert ',' !in "an email for confirmation";
  }

  /** The phrase list as the reply reads it, for one to four missing details. */
  lemma NeededTextReads(needs: seq<Field>)
    requires |needs| >= 1
    ensures |needs| == 1 ==> NeededText(needs) == FieldPhrase(needs[0])
    ensures |needs| >= 2 ==>
      NeededText(needs) ==
        Join(Phrases(needs)[..|needs| - 1], ", ") + ", and " + FieldPhrase(needs[|needs| - 1])
  {
    var ps := Phrases(needs);
    AddFinalAndList(ps);
    assert NeededText(needs) == AddFinalAnd(Join(ps, ", "));
    assert ps[|needs| - 1] == FieldPhrase(needs[|needs| - 1]);
  }

  /** Only the email missing: the request names just that. */
  lemma OnlyEmailMissingReply()
    ensures NeededText([EmailField]) == "an email for confirmation"
  {
    NeededTextReads([EmailField]);
  }

  // ---------------------------------------------------------------- contextual reply

  /**
   * A reply of `contextualBookingReply`: a request for the missing details
   * (with its text), or the confirmation prompt for a service and start,
   * with the optional phone hint when no phone is known.
   */
  datatype ContextReply =
    | AskFor(missing: seq<Field>, text: string)
    | ConfirmPrompt(serviceName: string, start: int, phoneHint: bool)

  const AskPrefix := "I'd love to schedule that; could you share "

  /** `contextualBookingReply`. */
  method ContextualBookingReply(name: Option<string>, email: Option<string>,
                                service: Option<Service>, desiredStart: Option<int>,
                                phone: Option<string>)
    returns (reply: ContextReply)
    ensures AllResolved(name, email, service, desiredStart) ==>
      reply == ConfirmPrompt(service.value.name, desiredStart.value, !Present(phone))
    ensures !AllResolved(name, email, service, desiredStart) ==>
      && reply.AskFor?
      && (forall f :: f in reply.missing <==> Unresolved(f, name, email, service, desiredStart))
      && (forall i, j :: 0 <= i < j < |reply.missing| ==> Rank(reply.missing[i]) < Rank(reply.missing[j]))
      && reply.text == AskPrefix + NeededText(reply.missing) + "?"
  {
    var needs := MissingFields(name, email, service, desiredStart);
    if |needs| == 0 {
      return ConfirmPrompt(service.value.name, desiredStart.value, !Present(phone));
    }
    var needed := AddFinalAnd(Join(Phrases(needs), ", "));
    reply := AskFor(needs, AskPrefix + needed + "?");
  }

  // ---------------------------------------------------------------- booking intent

  /** What `handleBookingIntent` answers with. */
  datatype BookingOutcome =
    | Ask(reply: ContextReply)
    | Failed(error: ReserveError, availability: seq<Slot>)
    | Confirmed(booking: Booking)

  /** The reservation request built from the extracted details once all are known. */
  function PayloadOf(name: Option<string>, email: Option<string>, phone: Option<string>,
                     service: Option<Service>, desiredStart: Option<int>): ReservationPayload
    requires AllResolved(name, email, service, desiredStart)
  {
    ReservationPayload(name.value, email.value, phone, service.value.id, desiredStart.value, None)
  }

  /**
   * A reservation the store accepts for the extracted details records the
   * client's name, email and phone, the catalog service and the requested
   * start, and ends after the service's duration.
   */
  lemma PayloadBooking(bookings: seq<Booking>, name: Option<string>, email: Option<string>,
                       phone: Option<string>, service: Option<Service>, desiredStart: Option<int>,
                       id: string)
    requires AllResolved(name, email, service, desiredStart) && service.value in Services
    requires Decide(bookings, PayloadOf(name, email, phone, service, desiredStart), id).Reserved?
    ensures Decide(bookings, PayloadOf(name, email, phone, service, desiredStart), id).booking
      == Booking(id, name.value, email.value, phone, service.value.id, desiredStart.value,
                 desiredStart.value + service.value.durationMinutes, None)
  {
    DecideOutcomes(bookings, PayloadOf(name, email, phone, service, desiredStart), id);
    GetServiceOfMember(service.value);
  }

  /** Number of open slots offered after a failed reservation. */
  const SuggestedSlots := 5

  /**
   * `handleBookingIntent`: with a detail missing it asks for the missing
   * details and leaves the store alone (so the confirmation prompt is never
   * produced here); otherwise it reserves, and on rejection returns the
   * error with the next open slots.
   */
  method HandleBookingIntent(store: BookingStore, name: Option<string>, email: Option<string>,
                             phone: Option<string>, service: Option<Service>,
                             desiredStart: Option<int>, id: string, now: int)
    returns (out: BookingOutcome)
    requires store.Valid()
    modifies store
    ensures store.Valid()
    ensures !AllResolved(name, email, service, desiredStart) ==>
      && out.Ask? && out.reply.AskFor?
      && (forall f :: f in out.reply.missing <==> Unresolved(f, name, email, service, desiredStart))
      && (forall i, j :: 0 <= i < j < |out.reply.missing| ==> Rank(out.reply.missing[i]) < Rank(out.reply.missing[j]))
      && out.reply.text == AskPrefix + NeededText(out.reply.missing) + "?"
      && store.bookings == old(store.bookings)
    ensures AllResolved(name, email, service, desiredStart) ==> !out.Ask?
    ensures out.Confirmed? ==>
      && AllResolved(name, email, service, desiredStart)
      && Decide(old(store.bookings), PayloadOf(name, email, phone, service, desiredStart), id)
           == Reserved(out.booking)
      && store.bookings == old(store.bookings) + [out.booking]
    ensures out.Failed? ==>
      && AllResolved(name, email, service, desiredStart)
      && Decide(old(store.bookings), PayloadOf(name, email, phone, service, desiredStart), id)
           == Rejected(out.error)
      && store.bookings == old(store.bookings)
      && EarliestFree(out.availability, SlotsForDays(Day(now), DefaultDaysAhead + 1),
                      store.bookings, SuggestedSlots)
  {
    if service.None? || desiredStart.None? || !Present(name) || !Present(email) {
      var reply := ContextualBookingReply(name, email, service, desiredStart, phone);
      return Ask(reply);
    }
    var result := store.Reserve(PayloadOf(name, email, phone, service, desiredStart), id);
    if result.Rejected? {
      var availability := store.NextAvailableSlots(now, SuggestedSlots);
      return Failed(result.error, availability);
    }
    out := Confirmed(result.booking);
  }

  /**
   * What `handleBookingIntent` does, between the bookings `before` and
   * `after` the call: with a detail missing, a request for exactly the
   * missing details, in order, and no change; otherwise the store's decision
   * on the payload, that is the booking appended, or the error with the
   * earliest open slots and no change.
   */
  predicate BookingHandled(before: seq<Booking>, after: seq<Booking>, out: BookingOutcome,
                           name: Option<string>, email: Option<string>, phone: Option<string>,
                           service: Option<Service>, desiredStart: Option<int>, id: string, now: int)
  {
    if !AllResolved(name, email, service, desiredStart) then
      && out.Ask? && out.reply.AskFor?
      && (forall f :: f in out.reply.missing <==> Unresolved(f, name, email, service, desiredStart))
      && (forall i, j :: 0 <= i < j < |out.reply.missing| ==> Rank(out.reply.missing[i]) < Rank(out.reply.missing[j]))
      && out.reply.text == AskPrefix + NeededText(out.reply.missing) + "?"
      && after == before
    else
      match Decide(before, PayloadOf(name, email, phone, service, desiredStart), id)
      case Reserved(booking) => out == Confirmed(booking) && after == before + [booking]
      case Rejected(error) =>
        && out.Failed? && out.error == error && after == before
        && EarliestFree(out.availability, SlotsForDays(Day(now), DefaultDaysAhead + 1), after, SuggestedSlots)
  }

  /** Two field lists in strictly increasing rank with the same members are equal. */
  lemma {:induction false} RankOrderedUnique(a: seq<Field>, b: seq<Field>)
    requires forall i, j :: 0 <= i < j < |a| ==> Rank(a[i]) < Rank(a[j])
    requires forall i, j :: 0 <= i < j < |b| ==> Rank(b[i]) < Rank(b[j])
    requires forall f :: f in a <==> f in b
    ensures a == b
    decreases |a|
  {
    assert |a| > 0 ==> a[0] in b;
    assert |b| > 0 ==> b[0] in a;
    if |a| > 0 {
      var i :| 0 <= i < |a| && a[i] == b[0];
      var j :| 0 <= j < |b| && b[j] == a[0];
      assert a[0] == b[0];
      RankOrderedTails(a, b);
      RankOrderedUnique(a[1..], b[1..]);
      assert a == [a[0]] + a[1..] && b == [b[0]] + b[1..];
    }
  }

  /** Dropping the common lowest-ranked head keeps the members equal. */
  lemma RankOrderedTails(a: seq<Field>, b: seq<Field>)
    requires |a| > 0 && |b| > 0 && a[0] == b[0]
    requires forall i, j :: 0 <= i < j < |a| ==> Rank(a[i]) < Rank(a[j])
    requires forall i, j :: 0 <= i < j < |b| ==> Rank(b[i]) < Rank(b[j])
    requires forall f :: f in a <==> f in b
    ensures forall f :: f in a[1..] <==> f in b[1..]
  {
    forall f | f in a[1..] ensures f in b[1..] {
      var m :| 1 <= m < |a| && a[m] == f;
      assert f in a;
      var n :| 0 <= n < |b| && b[n] == f;
      assert Rank(b[0]) < Rank(f);
    }
    forall f | f in b[1..] ensures f in a[1..] {
      var n :| 1 <= n < |b| && b[n] == f;
      assert f in b;
      var m :| 0 <= m < |a| && a[m] == f;
      assert Rank(a[0]) < Rank(f);
    }
  }

  /**
   * The booking flow is determined by the store and the details: two calls
   * from the same bookings leave the same bookings and give the same request,
   * the same booking, or the same error.
   */
  lemma BookingHandledDetermined(before: seq<Booking>, after1: seq<Booking>, out1: BookingOutcome,
                                 after2: seq<Booking>, out2: BookingOutcome,
                                 name: Option<string>, email: Option<string>, phone: Option<string>,
                                 service: Option<Service>, desiredStart: Option<int>, id: string, now: int)
    requires BookingHandled(before, after1, out1, name, email, phone, service, desiredStart, id, now)
    requires BookingHandled(before, after2, out2, name, email, phone, service, desiredStart, id, now)
    ensures after1 == after2
    ensures out1.Ask? <==> out2.Ask?
    ensures out1.Ask? ==> out1 == out2
    ensures out1.Confirmed? ==> out1 == out2
    ensures out1.Failed? ==> out2.Failed? && out1.error == out2.error
  {
    if !AllResolved(name, email, service, desiredStart) {
      var m1, m2 := out1.reply.missing, out2.reply.missing;
      assert forall f :: f in m1 <==> f in m2 by {
        forall f ensures f in m1 <==> f in m2 {
          assert f in m1 <==> Unresolved(f, name, email, service, desiredStart);
        }
      }
      RankOrderedUnique(m1, m2);
    }
  }

  // ---------------------------------------------------------------- reply selection

  /** The reply a request ends in, named by the branch of the handler that produced it. */
  datatype Branch =
    | InvalidPayload | EmptyConversation
    | Availability | Pricing | Bio | Location | Policy
    | BookingFlow
    | ServiceList | Thanks | Greeting | Fallback

  const AvailabilityWords: seq<string> := ["availability"]
  const PriceWords: seq<string> := ["price"]
  const BioWords: seq<string> := ["bio"]
  const LocationWords: seq<string> := ["where", "studio", "location"]
  const PolicyWords: seq<string> := ["policy"]
  const BookingWords: seq<string> := ["book", "schedule", "reserve", "appointment"]
  const ServicesWords: seq<string> := ["services"]
  const ThanksWords: seq<string> := ["thanks", "thank you"]
  const GreetingWords: seq<string> := ["hello", "hi"]

  /** `words.some(w => text.includes(w))`, and equally a chain of `includes` joined by `||`. */
  predicate MentionsAny(text: string, words: seq<string>)
  {
    exists k :: 0 <= k < |words| && Includes(text, words[k])
  }

  /**
   * The requested start `parseDesiredDate` yields for the latest message:
   * the parser's instant (local milliseconds) rounded to the nearest half
   * hour, as minutes.
   */
  function DesiredStart(latest: string, parseDate: string -> Option<int>): (r: Option<int>)
    ensures r.None? <==> parseDate(latest).None?
    ensures r.Some? ==> r.value * MsPerMinute == NearestSlotMillis(parseDate(latest).value)
  {
    match parseDate(latest)
    case None => None
    case Some(ms) => Some(NearestSlotMillis(ms) / MsPerMinute)
  }

  /**
   * `parseDesiredDate`: the parser's date for the message, moved in place to
   * the nearest half hour, as local minutes; nothing when no date is found.
   */
  method ParseDesiredDate(message: string, parseDate: string -> Option<int>) returns (desiredStart: Option<int>)
    ensures desiredStart == DesiredStart(message, parseDate)
  {
    var parsed := parseDate(message);
    if parsed.None? {
      return None;
    }
    var date := new Instant(parsed.value);
    RoundToNearestSlot(date);
    desiredStart := Some(date.millis / MsPerMinute);
  }

  /** `wantsBooking`: a booking word anywhere in the conversation, or a recognised service together with a start. */
  predicate WantsBooking(conversation: string, service: Option<Service>, desiredStart: Option<int>)
  {
    MentionsAny(conversation, BookingWords) || (service.Some? && desiredStart.Some?)
  }

  /** The keyword branches in the order they are tried. */
  const Priority: seq<Branch> :=
    [Availability, Pricing, Bio, Location, Policy, BookingFlow, ServiceList, Thanks, Greeting]

  /** Whether the check of each branch of `Priority` holds, in the same order. */
  datatype Flags = Flags(
    availability: bool, pricing: bool, bio: bool, location: bool, policy: bool,
    booking: bool, services: bool, thanks: bool, greeting: bool)

  /** The flag of the branch at position `i` of `Priority`. */
  function Fires(f: Flags, i: nat): bool
    requires i < |Priority|
  {
    match i
    case 0 => f.availability
    case 1 => f.pricing
    case 2 => f.bio
    case 3 => f.location
    case 4 => f.policy
    case 5 => f.booking
    case 6 => f.services
    case 7 => f.thanks
    case _ => f.greeting
  }

  /**
   * The checks for the lowercased latest message `text`: one of the branch's
   * words in it, except the booking flow, which fires on a booking word
   * anywhere in the lowercased conversation or on the service recognised in
   * it together with a requested start.
   */
  function Triggers(text: string, conversation: string, service: Option<Service>,
                    desiredStart: Option<int>): Flags
  {
    Flags(
      MentionsAny(text, AvailabilityWords),
      MentionsAny(text, PriceWords),
      MentionsAny(text, BioWords),
      MentionsAny(text, LocationWords),
      MentionsAny(text, PolicyWords),
      WantsBooking(conversation, service, desiredStart),
      MentionsAny(text, ServicesWords),
      MentionsAny(text, ThanksWords),
      MentionsAny(text, GreetingWords))
  }

  /** The chain of `if` statements of `POST` after the two guards, over the flags. */
  function Select(f: Flags): (r: Branch)
    ensures r != InvalidPayload && r != EmptyConversation
  {
    if f.availability then Availability
    else if f.pricing then Pricing
    else if f.bio then Bio
    else if f.location then Location
    else if f.policy then Policy
    else if f.booking then BookingFlow
    else if f.services then ServiceList
    else if f.thanks then Thanks
    else if f.greeting then Greeting
    else Fallback
  }

  /**
   * The branch `POST` takes for a request body (`None` when it holds no
   * message array), with `parseDate` standing for the date parser.
   */
  function Dispatch(payload: Option<seq<Message>>, parseDate: string -> Option<int>): (r: Branch)
    ensures r == InvalidPayload <==> payload.None?
    ensures r == EmptyConversation <==>
      payload.Some? && forall i :: 0 <= i < |payload.value| ==> payload.value[i].role != User
  {
    if payload.None? then InvalidPayload
    else match LatestUserContent(payload.value)
      case None => EmptyConversation
      case Some(latest) => Route(latest, LowercaseConversation(payload.value), parseDate)
  }

  /**
   * The branch for a conversation with a latest user message `latest`: the
   * keyword checks on it, lowercased, with the service recognised in the
   * conversation and the start requested in `latest`.
   */
  function Route(latest: string, conversation: string, parseDate: string -> Option<int>): (r: Branch)
    ensures r != InvalidPayload && r != EmptyConversation
  {
    Select(Triggers(ToLower(latest), conversation, DetermineService(conversation),
                    DesiredStart(latest, parseDate)))
  }

  /** `b` is the first branch in priority order whose flag is set, or the fallback when none is. */
  predicate FirstFiring(b: Branch, f: Flags)
  {
    if b == Fallback then
      forall j :: 0 <= j < |Priority| ==> !Fires(f, j)
    else
      exists i :: 0 <= i < |Priority| && Priority[i] == b && Fires(f, i)
        && forall j :: 0 <= j < i ==> !Fires(f, j)
  }

  /** At most one branch is the first to fire. */
  lemma FirstFiringUnique(b1: Branch, b2: Branch, f: Flags)
    requires FirstFiring(b1, f) && FirstFiring(b2, f)
    ensures b1 == b2
  {
    if b1 != Fallback && b2 != Fallback {
      var i1 :| 0 <= i1 < |Priority| && Priority[i1] == b1 && Fires(f, i1)
        && forall j :: 0 <= j < i1 ==> !Fires(f, j);
      var i2 :| 0 <= i2 < |Priority| && Priority[i2] == b2 && Fires(f, i2)
        && forall j :: 0 <= j < i2 ==> !Fires(f, j);
      assert !(i1 < i2) && !(i2 < i1);
    }
  }

  /** The chain picks the first set flag in priority order, and the fallback when none is set. */
  lemma SelectFirstMatch(f: Flags, b: Branch)
    ensures Select(f) == b <==> FirstFiring(b, f)
  {
    var d := Select(f);
    assert FirstFiring(d, f) by {
      if f.availability {
        assert Priority[0] == d && Fires(f, 0);
      } else if f.pricing {
        assert Priority[1] == d && Fires(f, 1);
      } else if f.bio {
        assert Priority[2] == d && Fires(f, 2);
      } else if f.location {
        assert Priority[3] == d && Fires(f, 3);
      } else if f.policy {
        assert Priority[4] == d && Fires(f, 4);
      } else if f.booking {
        assert Priority[5] == d && Fires(f, 5);
      } else if f.services {
        assert Priority[6] == d && Fires(f, 6);
      } else if f.thanks {
        assert Priority[7] == d && Fires(f, 7);
      } else if f.greeting {
        assert Priority[8] == d && Fires(f, 8);
      } else {
        forall j | 0 <= j < |Priority| ensures !Fires(f, j) { }
      }
    }
    if FirstFiring(b, f) {
      FirstFiringUnique(b, d, f);
    }
  }

  /** With a user message present, the branch taken is the first firing one in priority order. */
  lemma DispatchFirstMatch(messages: seq<Message>, parseDate: string -> Option<int>, b: Branch)
    requires LatestUserContent(messages).Some?
    ensures Dispatch(Some(messages), parseDate) == b <==>
      FirstFiring(b, Triggers(ToLower(LatestUserContent(messages).value),
                              LowercaseConversation(messages),
                              DetermineService(LowercaseConversation(messages)),
                              DesiredStart(LatestUserContent(messages).value, parseDate)))
  {
    var latest := LatestUserContent(messages).value;
    var conversation := LowercaseConversation(messages);
    SelectFirstMatch(Triggers(ToLower(latest), conversation, DetermineService(conversation),
                              DesiredStart(latest, parseDate)), b);
  }

  /** Assistant and system messages never change the branch taken. */
  lemma DispatchIgnoresNonUser(a: seq<Message>, m: Message, b: seq<Message>,
                               parseDate: string -> Option<int>)
    requires m.role != User
    ensures Dispatch(Some(a + [m] + b), parseDate) == Dispatch(Some(a + b), parseDate)
  {
    NonUserMessageIgnored(a, m, b);
    DispatchDependsOnUserMessages(a + [m] + b, a + b, parseDate);
  }

  /** The branch depends on the user's messages only. */
  lemma DispatchDependsOnUserMessages(m1: seq<Message>, m2: seq<Message>, parseDate: string -> Option<int>)
    requires UserContents(m1) == UserContents(m2)
    ensures Dispatch(Some(m1), parseDate) == Dispatch(Some(m2), parseDate)
  {
    LatestIsLastUserContent(m1);
    LatestIsLastUserContent(m2);
    var latest := LatestUserContent(m1);
    assert latest == LatestUserContent(m2);
    assert LowercaseConversation(m1) == LowercaseConversation(m2);
    if latest.Some? {
      assert Dispatch(Some(m1), parseDate) == Route(latest.value, LowercaseConversation(m1), parseDate);
    }
  }

  /** `Contains` is transitive: a needle of a needle of the haystack is in the haystack. */
  lemma ContainsTrans(a: string, b: string, c: string)
    requires Contains(a, b) && Contains(b, c)
    ensures Contains(a, c)
  {
    var i :| 0 <= i <= |a| && b <= a[i..];
    var j :| 0 <= j <= |b| && c <= b[j..];
    assert c <= a[i + j..];
  }

  /** A user message's content appears in the user-only sequence. */
  lemma {:induction false} UserMessageKept(messages: seq<Message>, i: nat)
    requires i < |messages| && messages[i].role == User
    ensures messages[i].content in UserContents(messages)
    decreases |messages|
  {
    if i < |messages| - 1 {
      var front := messages[..|messages| - 1];
      UserMessageKept(front, i);
      assert front[i] == messages[i];
    }
  }

  /** Whatever a user message contains (once lowercased), the conversation contains too. */
  lemma ConversationHasWord(messages: seq<Message>, i: nat, w: string)
    requires i < |messages| && messages[i].role == User
    requires Contains(ToLower(messages[i].content), w)
    ensures Contains(LowercaseConversation(messages), w)
  {
    UserMessageKept(messages, i);
    var users := UserContents(messages);
    var k :| 0 <= k < |users| && users[k] == messages[i].content;
    ConversationProperties(messages);
    ContainsTrans(LowercaseConversation(messages), ToLower(users[k]), w);
  }

  /** A booking word in a user message is a booking word of the conversation. */
  lemma ConversationMentionsBooking(messages: seq<Message>, i: nat, w: string)
    requires i < |messages| && messages[i].role == User
    requires w in BookingWords && Contains(ToLower(messages[i].content), w)
    ensures MentionsAny(LowercaseConversation(messages), BookingWords)
  {
    ConversationHasWord(messages, i, w);
    var k :| 0 <= k < |BookingWords| && BookingWords[k] == w;
    assert Includes(LowercaseConversation(messages), BookingWords[k]);
  }

  /**
   * A booking word anywhere in the conversation starts the booking flow
   * unless the latest message triggers one of the five earlier branches.
   */
  lemma BookingFlowWhen(messages: seq<Message>, parseDate: string -> Option<int>)
    requires LatestUserContent(messages).Some?
    requires var text := ToLower(LatestUserContent(messages).value);
      && !MentionsAny(text, AvailabilityWords) && !MentionsAny(text, PriceWords)
      && !MentionsAny(text, BioWords) && !MentionsAny(text, LocationWords)
      && !MentionsAny(text, PolicyWords)
    requires MentionsAny(LowercaseConversation(messages), BookingWords)
    ensures Dispatch(Some(messages), parseDate) == BookingFlow
  {
    var latest := LatestUserContent(messages).value;
    var conversation := LowercaseConversation(messages);
    var f := Triggers(ToLower(latest), conversation, DetermineService(conversation),
                      DesiredStart(latest, parseDate));
    assert f.booking;
    assert Select(f) == BookingFlow;
    assert Route(latest, conversation, parseDate) == BookingFlow;
  }

  /**
   * A booking word in ANY user message (lowercased) starts the booking flow
   * unless the latest message triggers one of the five earlier branches.
   */
  lemma BookingWordAnywhere(messages: seq<Message>, i: nat, w: string, parseDate: string -> Option<int>)
    requires i < |messages| && messages[i].role == User
    requires w in BookingWords && Contains(ToLower(messages[i].content), w)
    requires LatestUserContent(messages).Some?
    requires var text := ToLower(LatestUserContent(messages).value);
      && !MentionsAny(text, AvailabilityWords) && !MentionsAny(text, PriceWords)
      && !MentionsAny(text, BioWords) && !MentionsAny(text, LocationWords)
      && !MentionsAny(text, PolicyWords)
    ensures Dispatch(Some(messages), parseDate) == BookingFlow
  {
    ConversationMentionsBooking(messages, i, w);
    BookingFlowWhen(messages, parseDate);
  }

  // ---------------------------------------------------------------- request handler

  /**
   * The pattern matchers the handler relies on: the four name patterns, the
   * email and phone patterns over the conversation, and the date parser
   * (local milliseconds of the first date found in a message, if any).
   */
  datatype Extractors = Extractors(
    matchName: NameMatcher,
    email: string -> Option<string>,
    phone: string -> Option<string>,
    parseDate: string -> Option<int>)

  /** The response of `POST`, by branch: a fixed text, a list of open slots, or a booking outcome. */
  datatype Response =
    | Canned(branch: Branch)
    | OpenSlots(slots: seq<Slot>)
    | BookingReply(outcome: BookingOutcome)

  function BranchOf(resp: Response): Branch
  {
    match resp
    case Canned(b) => b
    case OpenSlots(_) => Availability
    case BookingReply(_) => BookingFlow
  }

  /** A response that recorded a booking. */
  predicate Booked(resp: Response)
  {
    resp.BookingReply? && resp.outcome.Confirmed?
  }

  /**
   * The part of `POST` after the extraction: the keyword checks in order on
   * the lowercased latest message `text`, with the booking flow between the
   * policy and the services checks.
   */
  method Respond(store: BookingStore, text: string, conversation: string,
                 name: Option<string>, email: Option<string>, phone: Option<string>,
                 service: Option<Service>, desiredStart: Option<int>, id: string, now: int)
    returns (resp: Response)
    requires store.Valid()
    modifies store
    ensures store.Valid()
    ensures BranchOf(resp) == Select(Triggers(text, conversation, service, desiredStart))
    ensures resp.Canned? ==> resp.branch != Availability && resp.branch != BookingFlow
    ensures resp.OpenSlots? ==>
      EarliestFree(resp.slots, SlotsForDays(Day(now), DefaultDaysAhead + 1), store.bookings, SuggestedSlots)
    ensures resp.BookingReply? ==>
      BookingHandled(old(store.bookings), store.bookings, resp.outcome,
                     name, email, phone, service, desiredStart, id, now)
    ensures !Booked(resp) ==> store.bookings == old(store.bookings)
    ensures Booked(resp) ==>
      && AllResolved(name, email, service, desiredStart)
      && Decide(old(store.bookings), PayloadOf(name, email, phone, service, desiredStart), id)
           == Reserved(resp.outcome.booking)
      && store.bookings == old(store.bookings) + [resp.outcome.booking]
  {
    if MentionsAny(text, AvailabilityWords) {
      var slots := store.NextAvailableSlots(now, SuggestedSlots);
      return OpenSlots(slots);
    }
    if MentionsAny(text, PriceWords) {
      return Canned(Pricing);
    }
    if MentionsAny(text, BioWords) {
      return Canned(Bio);
    }
    if MentionsAny(text, LocationWords) {
      return Canned(Location);
    }
    if MentionsAny(text, PolicyWords) {
      return Canned(Policy);
    }
    var wantsBooking := WantsBooking(conversation, service, desiredStart);
    if wantsBooking {
      var outcome := HandleBookingIntent(store, name, email, phone, service, desiredStart, id, now);
      return BookingReply(outcome);
    }
    if MentionsAny(text, ServicesWords) {
      return Canned(ServiceList);
    }
    if MentionsAny(text, ThanksWords) {
      return Canned(Thanks);
    }
    if MentionsAny(text, GreetingWords) {
      return Canned(Greeting);
    }
    return Canned(Fallback);
  }

  /**
   * `POST` at local minute `now`, `id` standing for the next random UUID:
   * the branch taken is `Dispatch`'s; the availability reply lists the
   * earliest open slots; the store changes only when a booking is
   * confirmed, and that booking carries the extracted name, the
   * conversation's email and phone, the recognised service and the rounded
   * requested start.
   */
  method Post(store: BookingStore, payload: Option<seq<Message>>, ex: Extractors, now: int, id: string)
    returns (resp: Response)
    requires store.Valid()
    modifies store
    ensures store.Valid()
    ensures BranchOf(resp) == Dispatch(payload, ex.parseDate)
    ensures resp.Canned? ==> resp.branch != Availability && resp.branch != BookingFlow
    ensures BranchOf(resp) == Availability ==> resp.OpenSlots?
    ensures BranchOf(resp) == BookingFlow ==> resp.BookingReply?
    ensures resp.OpenSlots? ==>
      EarliestFree(resp.slots, SlotsForDays(Day(now), DefaultDaysAhead + 1), store.bookings, SuggestedSlots)
    ensures resp.BookingReply? ==>
      && payload.Some? && LatestUserContent(payload.value).Some?
      && var conversation := LowercaseConversation(payload.value);
      BookingHandled(old(store.bookings), store.bookings, resp.outcome,
                     ExtractedName(UserContents(payload.value), ex.matchName),
                     ex.email(conversation), ex.phone(conversation), DetermineService(conversation),
                     DesiredStart(LatestUserContent(payload.value).value, ex.parseDate), id, now)
    ensures !Booked(resp) ==> store.bookings == old(store.bookings)
    ensures Booked(resp) ==>
      && payload.Some?
      && store.bookings == old(store.bookings) + [resp.outcome.booking]
      && var conversation := LowercaseConversation(payload.value);
      && var latest := LatestUserContent(payload.value);
      && var users := UserContents(payload.value);
      && latest.Some?
      && (exists i, k :: NameFoundAt(users, ex.matchName, i, k)
            && resp.outcome.booking.clientName == TitleCase(ex.matchName(NamePatterns[k], users[i]).value))
      && Some(resp.outcome.booking.email) == ex.email(conversation)
      && resp.outcome.booking.phone == ex.phone(conversation)
      && DetermineService(conversation) == GetService(resp.outcome.booking.serviceId)
      && Some(resp.outcome.booking.startsAt) == DesiredStart(latest.value, ex.parseDate)
  {
    if payload.None? {
      return Canned(InvalidPayload);
    }
    var messages := payload.value;
    var latestMessage := LatestUserContent(messages);
    if latestMessage.None? {
      return Canned(EmptyConversation);
    }
    var latest := latestMessage.value;

    var fullConversation := LowercaseConversation(messages);
    var name := ExtractName(messages, ex.matchName);
    var email := ex.email(fullConversation);
    var phone := ex.phone(fullConversation);
    var service := DetermineService(fullConversation);
    var desiredStart := ParseDesiredDate(latest, ex.parseDate);

    assert Dispatch(payload, ex.parseDate) == Route(latest, fullConversation, ex.parseDate);
    resp := Respond(store, ToLower(latest), fullConversation, name, email, phone, service,
                    desiredStart, id, now);
    if Booked(resp) {
      DecideOutcomes(old(store.bookings), PayloadOf(name, email, phone, service, desiredStart), id);
      GetServiceOfMember(service.value);
    }
  }
}
