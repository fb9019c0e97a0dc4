# Booking assistant core, modelled in Dafny

This project models the logic behind a beauty-booking chat assistant for a
single make-up artist. It has three parts:

- **The service catalog** (`src/data/services.ts`) is four services. Each has an id, a duration, a price and matching keywords.
- **The schedule** (`src/lib/schedule.ts`) generates half-hour slots from 09:00 to 18:00, Monday to Saturday, over today and the following 21 days.
  - It keeps an in-memory list of bookings.
  - It reserves a booking only when the service exists, the start is not before 09:00, the end is not after 18:00, and no stored booking overlaps it.
- **The chat endpoint** (`src/app/api/agent/route.ts`) works on the latest user message and on the lowercased user conversation.
  - It extracts a name, an email, a phone number, the best-matching service and a requested start. The start is rounded to the nearest half hour.
  - It picks a reply by a fixed-priority list of keyword checks.
  - One branch is the booking flow. It either asks for the missing details or calls the reservation.

Modules and files:

| file | module | models |
|---|---|---|
| `base.dfy` | `Base` | `Option` |
| `text.dfy` | `Text` | The JavaScript string operations the endpoint uses: ASCII `toLowerCase`/`toUpperCase`, `includes`, `split`, `join`, `trim` |
| `catalog.dfy` | `Catalog` | `services` and `getService` |
| `schedule.dfy` | `Schedule` | Slot generation, overlap and conflicts, next available slots, and the reservation decision. `BookingStore` is the class holding the mutable booking list. |
| `intent.dfy` | `Intent` | The user-only conversation, name extraction, service scoring, and half-hour rounding on a mutable `Instant` |
| `agent.dfy` | `Agent` | The missing-details list and its ", and" join, the booking gate, the reply dispatcher and the `POST` handler |

Time is measured in integer local units:

- **Store instants** are local minutes since 1970-01-01 00:00.
- **`Day(t)`** is `t / 1440`.
- **`MinuteOfDay(t)`** is `t % 1440`.
- **Weekdays:** a day index's weekday is `(day + 4) % 7`, because 1970-01-01 was a Thursday; 0 is Sunday.
- **The `Date` rounding** works on local milliseconds.

Outside inputs become parameters:

- **`now`:** the current instant.
- **`id`:** the next random UUID.
- **`Extractors`:** the regular-expression matchers and the natural-language date parser, passed as oracle functions.

A reply is represented by the branch that produced it, plus the data it carries:

- the open slots;
- the missing details and the request text;
- the reservation error;
- the confirmed booking.

Two behaviours of the code that are easy to miss:

- A rejected reservation is always followed by the availability list, whatever the error (`src/app/api/agent/route.ts:223-227`). The model does the same: `Failed(error, availability)`.
- The confirmation prompt of `contextualBookingReply` (`src/app/api/agent/route.ts:180-190`) cannot be reached from `handleBookingIntent`. Its gate (`src/app/api/agent/route.ts:211`) uses the same four tests. `Agent.HandleBookingIntent` states this: with a detail missing, the outcome is always a request for details.

## Model

| member | source | states |
|---|---|---|
| `Catalog.CatalogShape` | src/data/services.ts:10-47 | The catalog has four services in the order bridal-glam, event-glam, soft-glow, lesson, with durations 120, 90, 75 and 90 minutes |
| `Catalog.IdsDistinct` | src/data/services.ts:10-47 | No two catalog services share an id |
| `Catalog.DurationsFit` | src/data/services.ts:10-47 | Every duration is positive and at most the 540-minute business day |
| `Catalog.KeywordsLowercase` | src/data/services.ts:10-47 | Every service has at least one keyword, and lowercasing any keyword leaves it unchanged |
| `Catalog.FindById` | src/lib/schedule.ts:35-36 | `find` returns a service exactly when some entry has the id, and then the first such entry |
| `Catalog.GetService` | src/lib/schedule.ts:35-36 | The lookup succeeds exactly when a catalog service has the id, and returns a catalog member with that id |
| `Catalog.GetServiceOwnId` | src/lib/schedule.ts:35-36 | Looking up the i-th service's id returns that very service, because ids are unique |
| `Catalog.GetServiceOfMember` | src/lib/schedule.ts:35-36 | Any catalog member is found again by its id |
| `Catalog.GetServiceDuration` | src/lib/schedule.ts:35-36 | Whatever the lookup returns has a positive duration that fits inside the business day |
| `Schedule.IsBusinessDay` | src/lib/schedule.ts:38-39 | (definition) The weekday is in Monday..Saturday; see `BusinessDayIffNotSunday` |
| `Schedule.BusinessDayIffNotSunday` | src/lib/schedule.ts:12 | Weekdays lie in 0..6, and a day is a business day exactly when it is not a Sunday |
| `Schedule.DayAndMinute` | src/lib/schedule.ts:45 | An instant built as day × 1440 + minute splits back into that day and that minute |
| `Schedule.GenerateSlots` | src/lib/schedule.ts:41-65 | The nested loops return exactly the slots of `SlotsForDays` for days `Day(now)` .. `Day(now)+daysAhead` |
| `Schedule.DaySlotsMembers` | src/lib/schedule.ts:51-61 | A slot belongs to a day's slots iff it is on that day, starts at a half-hour minute between 09:00 and 17:30, and lasts 30 minutes |
| `Schedule.SlotsForDaysMembers` | src/lib/schedule.ts:41-65 | A slot is generated iff its day is in the window and is a business day, it starts on a half hour from 09:00 to 17:30, and it lasts 30 minutes. So no slot falls on a Sunday. |
| `Schedule.DaySlotsTile` | src/lib/schedule.ts:51-61 | A business day has exactly 18 back-to-back 30-minute slots, the first starting at 09:00 and the last ending at 18:00 |
| `Schedule.SlotsForDaysOrdered` | src/lib/schedule.ts:44-61 | Generated slots come out with strictly increasing starts, each ending no later than any later one starts |
| `Schedule.Overlaps` | src/lib/schedule.ts:67-72 | (definition) The half-open overlap test; see `OverlapsIffSharedMinute` |
| `Schedule.OverlapsIffSharedMinute` | src/lib/schedule.ts:67-72 | For non-empty intervals, the half-open overlap test holds iff they share a minute. Touching endpoints do not overlap. |
| `Schedule.Conflicts` | src/lib/schedule.ts:74-77 | There is a conflict iff some stored booking overlaps the candidate |
| `Schedule.FreeSlots` | src/lib/schedule.ts:80-81 | The filter keeps exactly the non-conflicting slots, never grows, and keeps chronological order |
| `Schedule.TakeKeepsEarliest` | src/lib/schedule.ts:82 | Slicing a chronological sequence keeps it chronological. A dropped element comes after every kept one, and is dropped only because the count was reached. |
| `Schedule.NextAvailableAreEarliest` | src/lib/schedule.ts:79-82 | Filtering then slicing gives at most `count` free generated slots, in order, and they are the earliest free ones |
| `Schedule.HourBoundaries` | src/lib/schedule.ts:114-129 | The opening and closing checks on `setHours(setMinutes(t, 0), h)` are comparisons of the start's minute of the day with 09:00 and 18:00 |
| `Schedule.Decide` | src/lib/schedule.ts:105-157 | (definition) The outcome of `reserveBooking` for a store and a payload; its meaning is stated by `DecideOutcomes` |
| `Schedule.DecideOutcomes` | src/lib/schedule.ts:105-157 | Each of the four errors happens iff its check is the first to fail (unknown service, before 09:00, end after 18:00, overlap). A success carries the payload's data, the service id and `endsAt = startsAt + durationMinutes`. |
| `Schedule.AppendDisjoint` | src/lib/schedule.ts:136-155 | Appending a booking that conflicts with no stored one keeps the bookings pairwise non-overlapping |
| `Schedule.ReserveKeepsConsistent` | src/lib/schedule.ts:105-157 | A successful reservation keeps every booking well formed (known service, its duration, within 09:00-18:00) and no two overlapping |
| `Schedule.BookingStore.constructor` | src/lib/schedule.ts:28 | The store starts empty and consistent |
| `Schedule.BookingStore.ListBookings` | src/lib/schedule.ts:94 | The copy equals the stored list, and nothing is changed. So two calls without a reservation in between agree. |
| `Schedule.BookingStore.Reserve` | src/lib/schedule.ts:105-158 | Returns the decision for the old store. On success exactly that booking is appended and earlier ones are untouched; on rejection the store is unchanged. Consistency is preserved. |
| `Schedule.BookingStore.NextAvailableSlots` | src/lib/schedule.ts:79-92 | Returns the earliest `count` free slots among those generated for `now`'s day and the following 21 days |
| `Text.ToLower` | src/app/api/agent/route.ts:25 | Lowercasing keeps the length. Every upper-case ASCII letter becomes the matching lower-case letter (code point + 32), and every other character is unchanged. |
| `Text.ToLowerIdempotent` | src/app/api/agent/route.ts:25 | Lowercasing twice is the same as once |
| `Text.Includes` | src/app/api/agent/route.ts:65 | The scan is true iff the needle occurs at some position of the haystack |
| `Text.JoinContainsPart` | src/app/api/agent/route.ts:26 | Each part occurs in the joined string |
| `Text.JoinChars` | src/app/api/agent/route.ts:26 | Every character of a joined string has any property shared by all parts and the separator |
| `Text.IndexOf` | src/app/api/agent/route.ts:48 | Returns the first position of the character |
| `Text.JoinSplit` | src/app/api/agent/route.ts:48-50 | Splitting on a character and joining with it gives back the original string |
| `Text.SplitCapitalizeJoin` | src/app/api/agent/route.ts:47-50 | Split on spaces, capitalise each part and join with spaces. This upper-cases exactly the characters that start the string or follow a space. |
| `Text.Trim` | src/app/api/agent/route.ts:51 | The result is a piece of the input that does not start or end with white space, and only white space was cut from either end |
| `Intent.UserContents` | src/app/api/agent/route.ts:24 | (definition) The user messages' contents in order; see `UserContentsFromUsers` and `Agent.UserMessageKept` |
| `Intent.UserContentsFromUsers` | src/app/api/agent/route.ts:24 | Every entry of the user-only sequence is the content of some user-role message |
| `Intent.UserContentsAppend` | src/app/api/agent/route.ts:24 | Filtering user messages distributes over concatenation |
| `Intent.NonUserMessageIgnored` | src/app/api/agent/route.ts:24 | Inserting an assistant or system message anywhere leaves the user contents unchanged |
| `Intent.LowerAll` | src/app/api/agent/route.ts:25 | Each user message is lowercased in place in the sequence, so no character of any element is an upper-case letter |
| `Intent.LowercaseConversation` | src/app/api/agent/route.ts:22-26 | (definition) User messages, lowercased, joined by single spaces; see `ConversationProperties` and `ConversationIgnoresNonUser` |
| `Intent.ConversationProperties` | src/app/api/agent/route.ts:22-26 | The conversation contains every user message lowercased, and holds no upper-case letter |
| `Intent.ConversationIgnoresNonUser` | src/app/api/agent/route.ts:22-26 | Assistant and system messages never change the conversation string |
| `Intent.LatestUserContent` | src/app/api/agent/route.ts:247 | There is no latest user message iff no message has the user role |
| `Intent.LatestUserContentIsLatest` | src/app/api/agent/route.ts:247 | The found content is that of a user message with no later user message |
| `Intent.LatestIsLastUserContent` | src/app/api/agent/route.ts:247 | The latest user message is the last entry of the user-only sequence, and is absent iff that sequence is empty |
| `Intent.NameFoundAtUnique` | src/app/api/agent/route.ts:42-53 | The first match in scan order (latest message first, patterns in order) is unique |
| `Intent.TitleCase` | src/app/api/agent/route.ts:47-51 | The split/capitalise/join/trim chain upper-cases the first letter of each space-separated part and trims the result |
| `Intent.ExtractedName` | src/app/api/agent/route.ts:42-56 | (definition) The name `extractName` returns, as a recursive reference: the latest user message with any match, its first matching pattern, title-cased; see `ExtractedNameMeaning` |
| `Intent.ExtractedNameMeaning` | src/app/api/agent/route.ts:42-56 | `ExtractedName` is absent iff no pattern matches any user message, and otherwise is the title-cased capture of the first match in scan order (latest message first, patterns in order) |
| `Intent.ExtractedNameAt` | src/app/api/agent/route.ts:42-53 | Conversely, whichever message and pattern are the first match in scan order, `ExtractedName` is that capture, title-cased |
| `Intent.ExtractName` | src/app/api/agent/route.ts:34-57 | No name iff no pattern matches any user message. Otherwise the name is the title-cased capture of the first match scanning messages latest first and, within one, patterns in order. The loop's result equals the reference definition `ExtractedName`. |
| `Intent.MentionedAt` | src/app/api/agent/route.ts:63-67 | (definition) The set of keyword positions whose keyword occurs in the conversation |
| `Intent.CountMentioned` | src/app/api/agent/route.ts:63-67 | The left-to-right reduce; its meaning is stated by `CountMentionedCounts` and `CountMentionedBounds` |
| `Intent.CountMentionedCounts` | src/app/api/agent/route.ts:63-67 | The reduce equals the number of keyword positions whose keyword occurs in the conversation |
| `Intent.CountMentionedBounds` | src/app/api/agent/route.ts:63-67 | The count is at most the number of keywords. It is positive iff some keyword occurs, and full iff all occur. |
| `Intent.MentionedAtSnoc` | src/app/api/agent/route.ts:63-67 | The mentioned-position count of a keyword list is that of all but the last keyword, plus one iff the last occurs |
| `Intent.Score` | src/app/api/agent/route.ts:63-67 | A service's score is the reduce over its lowercased keywords; see `ScoreCountsKeywords` |
| `Intent.ScoreCountsKeywords` | src/app/api/agent/route.ts:63-67 | A service's score is exactly the number of its keywords whose lowercased form occurs in the conversation |
| `Intent.ScoreMatchesLoweredKeywords` | src/app/api/agent/route.ts:63-67 | For every catalog service, the score with each keyword lowercased equals the count over the keywords as written. Lowering them is a no-op on this catalog. |
| `Intent.Insert` | src/app/api/agent/route.ts:69 | Insertion adds exactly the element, and the head is the old head unless the new element scores strictly more |
| `Intent.DescendingCons` | src/app/api/agent/route.ts:69 | A head scoring at least the descending tail's head gives a descending sequence |
| `Intent.InsertDescending` | src/app/api/agent/route.ts:69 | Inserting into a descending sequence keeps it descending |
| `Intent.SortByScore` | src/app/api/agent/route.ts:69 | The sort result is descending by score and a permutation of its input |
| `Intent.FirstMaxSnoc` | src/app/api/agent/route.ts:69 | Appending an entry moves the first maximum to it only when it scores strictly more |
| `Intent.SortHeadIsFirstMax` | src/app/api/agent/route.ts:69-71 | The head of the stable descending sort is the earliest entry with the highest score |
| `Intent.DetermineService` | src/app/api/agent/route.ts:59-74 | A recognised service is a catalog service |
| `Intent.DetermineServiceIsBest` | src/app/api/agent/route.ts:59-74 | A service is recognised iff some service scores above 0. It then has the highest score, and every earlier catalog entry scores strictly less, so ties go to the first listed. |
| `Intent.Instant.constructor` | src/app/api/agent/route.ts:97 | A date holds the given local millisecond |
| `Intent.Instant.Minutes` | src/app/api/agent/route.ts:77 | `getMinutes()` is the minute of the local hour. It lies in 0..59, and the instant is its whole hours, plus that many minutes, plus the leftover seconds and milliseconds. |
| `Intent.Instant.SetMinutes` | src/app/api/agent/route.ts:86-88 | `setMinutes(m, s, ms)` keeps the hour and replaces the minute, second and millisecond; minute 60 rolls into the next hour |
| `Intent.Instant.SetSeconds` | src/app/api/agent/route.ts:81 | `setSeconds(s, ms)` keeps the minute and replaces second and millisecond |
| `Intent.NearestSlotMillis` | src/app/api/agent/route.ts:76-94 | The rounded instant is a multiple of 30 minutes, so seconds and milliseconds are zero. It lies within 15 minutes of the input, and an exact quarter past rounds up. |
| `Intent.NearestSlotAt` | src/app/api/agent/route.ts:76-94 | A half-hour multiple in the window `(t - 15 min, t + 15 min]` is the rounded instant |
| `Intent.NearestSlotUnique` | src/app/api/agent/route.ts:76-94 | Only one half-hour boundary lies in that window |
| `Intent.NearestSlotIdempotent` | src/app/api/agent/route.ts:76-94 | Rounding a rounded instant changes nothing |
| `Intent.HourMinuteSplit` | src/app/api/agent/route.ts:77-78 | An instant is its whole hours plus `getMinutes()` minutes plus leftover seconds and milliseconds |
| `Intent.NearestSlotByMinute` | src/app/api/agent/route.ts:77-91 | A remainder below 15 rounds down within the hour, 15 or more rounds up (possibly into the next hour), and an aligned minute is kept with only the seconds dropped |
| `Intent.RoundToNearestSlot` | src/app/api/agent/route.ts:76-94 | The date is moved in place to the nearest half hour, as the reference definition gives |
| `Agent.ResolvedIffNoneMissing` | src/app/api/agent/route.ts:148-150 | The gate's four truthiness tests pass iff no detail is unresolved |
| `Agent.MissingFields` | src/app/api/agent/route.ts:165-178 | The needs list holds exactly the unresolved details, in the order service, date and time, name, email. It is empty iff everything is resolved. |
| `Agent.Phrases` | src/app/api/agent/route.ts:168-177 | Each missing detail is mapped to its request phrase, and no phrase in the list contains a comma. So the final-"and" rewrite acts on the last separator. |
| `Agent.LastComma` | src/app/api/agent/route.ts:193 | Returns the position of the last comma, or -1 when there is none |
| `Agent.JoinSnoc` | src/app/api/agent/route.ts:193 | A join splits into the join of all but the last part, the separator, and the last part |
| `Agent.AddFinalAnd` | src/app/api/agent/route.ts:193 | (definition) The `replace(/, ([^,]*)$/, ", and $1")` rewrite; see `AddFinalAndList` |
| `Agent.AddFinalAndNoComma` | src/app/api/agent/route.ts:193 | The ", and" rewrite leaves a comma-free string unchanged |
| `Agent.AddFinalAndAtLast` | src/app/api/agent/route.ts:193 | The rewrite turns the last ", " before comma-free text into ", and " |
| `Agent.AddFinalAndList` | src/app/api/agent/route.ts:193 | For comma-free items the result is a single item alone, or all but the last joined by ", " then ", and " and the last |
| `Agent.PhraseCommaFree` | src/app/api/agent/route.ts:168-177 | No request phrase contains a comma |
| `Agent.NeededTextReads` | src/app/api/agent/route.ts:193 | The missing-details text is one phrase alone, or the phrases joined by ", " with ", and " before the last |
| `Agent.OnlyEmailMissingReply` | src/app/api/agent/route.ts:193 | With only the email missing, the text is "an email for confirmation" |
| `Agent.ContextualBookingReply` | src/app/api/agent/route.ts:152-196 | With every detail known, the reply is the confirmation prompt, with the phone hint iff no phone is known. Otherwise it asks for exactly the missing details in order, with the "could you share …?" text. |
| `Agent.PayloadBooking` | src/app/api/agent/route.ts:215-221 | When the store accepts the payload built from the extracted details, the booking records the id, name, email and phone, the catalog service's id and the requested start, ends `durationMinutes` later, and has no notes |
| `Agent.RankOrderedUnique` | src/app/api/agent/route.ts:165-179 | A request list of details is fixed by its members and its order: two lists with the same details, both in the order service, date and time, name, email, are equal |
| `Agent.BookingHandledDetermined` | src/app/api/agent/route.ts:198-235 | The booking flow is a function of the store and the details: from the same bookings, two outcomes allowed by `BookingHandled` leave the same store and are the same request, the same booking or the same error |
| `Agent.HandleBookingIntent` | src/app/api/agent/route.ts:198-235 | With a detail missing it asks for exactly the missing details, in the order service, date and time, name, email, with the text `AskPrefix + NeededText(missing) + "?"`, and leaves the store unchanged. Otherwise it reserves: a confirmation is the decided booking appended to the store; a rejection is the decided error plus the earliest 5 free slots, and the store is unchanged. |
| `Agent.DesiredStart` | src/app/api/agent/route.ts:96-106 | A start exists iff the parser finds a date, and it is that date rounded to the nearest half hour |
| `Agent.ParseDesiredDate` | src/app/api/agent/route.ts:96-106 | Parsing then rounding a `Date` in place gives the reference start |
| `Agent.WantsBooking` | src/app/api/agent/route.ts:289-293 | (definition) A booking word in the conversation, or both a service and a start; see `BookingFlowWhen` |
| `Agent.Triggers` | src/app/api/agent/route.ts:263-322 | (definition) The nine branch checks: the latest message for all but the booking flow; see `SelectFirstMatch` and `DispatchFirstMatch` |
| `Agent.Select` | src/app/api/agent/route.ts:263-329 | The keyword chain never yields the invalid-payload or empty-conversation branch |
| `Agent.Dispatch` | src/app/api/agent/route.ts:237-254 | The invalid-payload branch is taken iff there is no message array. The empty-conversation branch is taken iff no message has the user role. |
| `Agent.Route` | src/app/api/agent/route.ts:256-329 | With a latest user message, the branch is one of the keyword branches or the fallback |
| `Agent.FirstFiringUnique` | src/app/api/agent/route.ts:263-329 | At most one branch is the first to fire in priority order |
| `Agent.SelectFirstMatch` | src/app/api/agent/route.ts:263-329 | The chain picks a branch iff it is the first whose check holds in the order availability, price, bio, location, policy, booking, services, thanks, greeting. The fallback is picked iff none holds. |
| `Agent.DispatchFirstMatch` | src/app/api/agent/route.ts:256-329 | For a conversation with a user message, `POST` takes the first firing branch for the lowercased latest message, the recognised service and the rounded start |
| `Agent.DispatchIgnoresNonUser` | src/app/api/agent/route.ts:247-261 | Inserting an assistant or system message anywhere never changes the branch |
| `Agent.DispatchDependsOnUserMessages` | src/app/api/agent/route.ts:247-261 | Two payloads with the same user messages take the same branch |
| `Agent.ContainsTrans` | src/app/api/agent/route.ts:292 | Containment is transitive |
| `Agent.UserMessageKept` | src/app/api/agent/route.ts:24 | A user message's content is in the user-only sequence |
| `Agent.ConversationHasWord` | src/app/api/agent/route.ts:22-26 | A word in any lowercased user message is in the conversation |
| `Agent.ConversationMentionsBooking` | src/app/api/agent/route.ts:289-292 | A booking word in any user message is a booking word of the conversation |
| `Agent.BookingFlowWhen` | src/app/api/agent/route.ts:289-305 | A booking word in the conversation leads to the booking flow, unless the latest message fires one of the five earlier branches |
| `Agent.BookingWordAnywhere` | src/app/api/agent/route.ts:289-305 | A booking word in any user message, even an earlier one, leads to the booking flow, unless the latest message fires one of the five earlier branches |
| `Agent.Respond` | src/app/api/agent/route.ts:263-329 | The branch taken is the chain's choice for the checks. The availability branch always answers with the earliest 5 free slots, and the booking branch always with `handleBookingIntent`'s outcome (`BookingHandled`): the ordered request when a detail is missing, otherwise the store's decision, that is the booking appended or the error with the earliest 5 free slots. The store changes only on a confirmed booking. |
| `Agent.Post` | src/app/api/agent/route.ts:237-330 | The branch is `Dispatch`'s. The availability branch always lists the earliest 5 free slots. The booking branch always carries `handleBookingIntent`'s outcome (`BookingHandled`) for the extracted details: the name `ExtractedName` of the user messages, the conversation's email and phone, `DetermineService` of the conversation, and the rounded start of the latest message. The store changes only when a booking is confirmed; that booking is appended and carries those details. |

## Left out

- **Natural-language date parsing** (chrono-node), and the regular expressions for the name patterns, email and phone. These are foreign code. They reach the model as the oracle functions of `Extractors`. Also left out:
  - the phone's whitespace normalisation and trim;
  - the regex's own capture rules.
- **Reply wording:**
  - `describeServices`, `successReply`, `bioReply`, `locationReply`, `policyReply`, the greeting, thanks and fallback texts, and the bullet list of `buildAvailabilityReply`;
  - all `format`, `formatISO` and `Intl.DateTimeFormat` output.
  
  A reply is represented by its branch and its data, so these are formatting only. Reservation error texts are kept in `Schedule.ErrorMessage`. Stored instants are integer minutes, so ISO strings are assumed to round-trip.
- **Service descriptions** are held in `Catalog.Service` as tags. The exact texts are in `Catalog.DescriptionText`, so the long strings stay out of proofs.
- **Time zone and daylight saving time.** Days are 1440 local minutes, and `startOfDay`/`setHours` are exact arithmetic on them. An invalid `Date` is not modelled.
- **`new Date()` and `randomUUID()`** become the parameters `now` and `id`. Uniqueness of ids is not modelled. In the source, slot generation and the parser each read the clock. In the model, the parser's reading is part of the `parseDate` oracle.
- **Concurrency.** Requests are modelled one at a time against one `BookingStore`. The double-booking race between concurrent requests is outside a sequential model.
- **Next.js HTTP plumbing.** `request.json()`, `NextResponse`, status codes and `metadata` are represented by `Agent.Response`. A body whose `messages` is missing or not an array is `None`. Malformed entries inside the array are not modelled.
- **`getNextAvailableSlots`' default count of 6.** It is never used; callers pass 5, and `NextAvailableSlots` takes the count as a parameter.
- **The presentation layer.** `src/components/ChatAgent.tsx`, `src/components/ServiceShowcase.tsx`, `src/app/page.tsx` and `src/app/layout.tsx` hold no booking logic.
- Text.ToLower: covers ASCII letters only. JavaScript's full Unicode case mapping is not modelled.
- Intent.DetermineService: its own contract says only that the result is a catalog member. The maximal-score and earliest-tie statement is `Intent.DetermineServiceIsBest`.
