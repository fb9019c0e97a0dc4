/**
 * Entity extraction of the booking assistant (src/app/api/agent/route.ts):
 * the user-only lowercased conversation, name extraction, keyword scoring of
 * services and rounding of a requested start to the nearest half hour.
 *
 * The regular expressions and the natural-language date parser are not
 * modelled: their results reach this module as oracle functions.
 */
module Intent {
  import opened Base
  import opened Text
  import opened Catalog

  datatype Role = User | Assistant | System

  datatype Message = Message(role: Role, content: string)

  // ---------------------------------------------------------------- conversation

  /** `messages.filter(m => m.role === "user").map(m => m.content)`. */
  function UserContents(messages: seq<Message>): seq<string>
  {
    if |messages| == 0 then []
    else
      var last := messages[|messages| - 1];
      UserContents(messages[..|messages| - 1]) + (if last.role == User then [last.content] else [])
  }

  /** Every entry of the user-only sequence is the content of a user message. */
  lemma {:induction false} UserContentsFromUsers(messages: seq<Message>, k: nat)
    requires k < |UserContents(messages)|
    ensures Message(User, UserContents(messages)[k]) in messages
    decreases |messages|
  {
    var init := messages[..|messages| - 1];
    if k < |UserContents(init)| {
      UserContentsFromUsers(init, k);
      assert forall m :: m in init ==> m in messages;
    } else {
      assert messages[|messages| - 1] == Message(User, UserContents(messages)[k]);
    }
  }

  /** Filtering distributes over concatenation. */
  lemma {:induction false} UserContentsAppend(a: seq<Message>, b: seq<Message>)
    ensures UserContents(a + b) == UserContents(a) + UserContents(b)
    decreases |b|
  {
    if |b| == 0 {
      assert a + b == a;
    } else {
      var b', ab := b[..|b| - 1], a + b;
      var own := if b[|b| - 1].role == User then [b[|b| - 1].content] else [];
      UserContentsAppend(a, b');
      assert ab[..|ab| - 1] == a + b' && ab[|ab| - 1] == b[|b| - 1];
      assert UserContents(ab) == UserContents(a + b') + own;
      assert UserContents(b) == UserContents(b') + own;
    }
  }

  /** A message that is not the user's, wherever it stands, contributes nothing. */
  lemma NonUserMessageIgnored(a: seq<Message>, m: Message, b: seq<Message>)
    requires m.role != User
    ensures UserContents(a + [m] + b) == UserContents(a + b)
  {
    UserContentsAppend(a + [m], b);
    UserContentsAppend(a, [m]);
    UserContentsAppend(a, b);
    assert UserContents([m]) == UserContents([]) + [];
  }

  /** The lowercased texts, in order: none of them holds an upper-case letter. */
  function LowerAll(texts: seq<string>): (r: seq<string>)
    ensures |r| == |texts|
    ensures forall k :: 0 <= k < |texts| ==> r[k] == ToLower(texts[k])
    ensures forall k, j :: 0 <= k < |r| && 0 <= j < |r[k]| ==> !IsUpperAscii(r[k][j])
  {
    seq(|texts|, k requires 0 <= k < |texts| => ToLower(texts[k]))
  }

  /** `lowercaseConversation`: user messages only, lowercased, joined by single spaces. */
  function LowercaseConversation(messages: seq<Message>): string
  {
    Join(LowerAll(UserContents(messages)), " ")
  }

  /**
   * The conversation holds every user message, lowercased, has no upper-case
   * letter, and assistant or system messages never change it.
   */
  lemma ConversationProperties(messages: seq<Message>)
    ensures forall k :: 0 <= k < |UserContents(messages)| ==>
      Contains(LowercaseConversation(messages), ToLower(UserContents(messages)[k]))
    ensures forall i :: 0 <= i < |LowercaseConversation(messages)| ==>
      !IsUpperAscii(LowercaseConversation(messages)[i])
  {
    var parts := LowerAll(UserContents(messages));
    forall k | 0 <= k < |parts| ensures Contains(Join(parts, " "), parts[k]) {
      JoinContainsPart(parts, " ", k);
    }
    JoinChars(parts, " ", c => !IsUpperAscii(c));
  }

  lemma ConversationIgnoresNonUser(a: seq<Message>, m: Message, b: seq<Message>)
    requires m.role != User
    ensures LowercaseConversation(a + [m] + b) == LowercaseConversation(a + b)
  {
    NonUserMessageIgnored(a, m, b);
  }

  /** `messages.filter(m => m.role === "user").pop()`, by its content. */
  function LatestUserContent(messages: seq<Message>): (r: Option<string>)
    ensures r.None? <==> forall i :: 0 <= i < |messages| ==> messages[i].role != User
  {
    if |messages| == 0 then None
    else if messages[|messages| - 1].role == User then Some(messages[|messages| - 1].content)
    else
      var r := LatestUserContent(messages[..|messages| - 1]);
      assert forall i :: 0 <= i < |messages| - 1 ==> messages[..|messages| - 1][i] == messages[i];
      r
  }

  /** The content found is that of a user message after which no user message follows. */
  lemma {:induction false} LatestUserContentIsLatest(messages: seq<Message>)
    requires LatestUserContent(messages).Some?
    ensures exists i :: 0 <= i < |messages| && messages[i] == Message(User, LatestUserContent(messages).value)
                        && forall j :: i < j < |messages| ==> messages[j].role != User
  {
    var n := |messages|;
    if messages[n - 1].role != User {
      var init := messages[..n - 1];
      LatestUserContentIsLatest(init);
      var i :| 0 <= i < |init| && init[i] == Message(User, LatestUserContent(init).value)
               && forall j :: i < j < |init| ==> init[j].role != User;
      assert messages[i] == init[i];
      forall j | i < j < n ensures messages[j].role != User {
        if j < n - 1 { assert messages[j] == init[j]; }
      }
    }
  }

  /** The latest user message is the last entry of the user-only sequence. */
  lemma {:induction false} LatestIsLastUserContent(messages: seq<Message>)
    ensures LatestUserContent(messages).None? <==> |UserContents(messages)| == 0
    ensures LatestUserContent(messages).Some? ==>
      LatestUserContent(messages).value == UserContents(messages)[|UserContents(messages)| - 1]
  {
    if |messages| > 0 {
      LatestIsLastUserContent(messages[..|messages| - 1]);
    }
  }

  // ---------------------------------------------------------------- name

  /** The four phrase patterns, tried in this order. */
  datatype NamePattern = MyNameIs | ThisIs | IAm | IApostropheM

  const NamePatterns: seq<NamePattern> := [MyNameIs, ThisIs, IAm, IApostropheM]

  /** The regex engine: the captured name of a pattern in a text, if it matches. */
  type NameMatcher = (NamePattern, string) -> Option<string>

  predicate Matches(matcher: NameMatcher, k: nat, text: string)
    requires k < |NamePatterns|
  {
    matcher(NamePatterns[k], text).Some?
  }

  /**
   * Pattern `k` matches user message `i`, no later user message matches any
   * pattern, and no earlier pattern matches message `i`.
   */
  predicate NameFoundAt(users: seq<string>, matcher: NameMatcher, i: int, k: int)
  {
    && 0 <= i < |users| && 0 <= k < |NamePatterns|
    && Matches(matcher, k, users[i])
    && (forall j, k' :: i < j < |users| && 0 <= k' < |NamePatterns| ==> !Matches(matcher, k', users[j]))
    && (forall k' :: 0 <= k' < k ==> !Matches(matcher, k', users[i]))
  }

  /** The first match in scan order is unique, so the extracted name is well defined. */
  lemma NameFoundAtUnique(users: seq<string>, matcher: NameMatcher, i1: int, k1: int, i2: int, k2: int)
    requires NameFoundAt(users, matcher, i1, k1) && NameFoundAt(users, matcher, i2, k2)
    ensures i1 == i2 && k1 == k2
  {
  }

  /** Title-casing of a captured name: split on spaces, capitalise each part, join, trim. */
  function TitleCase(captured: string): (r: string)
    ensures r == Trim(CapitalizeWords(captured))
  {
    SplitCapitalizeJoin(captured);
    Trim(Join(CapitalizeAll(Split(captured, ' ')), " "))
  }

  /** The capture of the first pattern, from the `k`-th on, that matches `text`. */
  function FirstCapture(matcher: NameMatcher, text: string, k: nat): Option<string>
    requires k <= |NamePatterns|
    decreases |NamePatterns| - k
  {
    if k == |NamePatterns| then None
    else if Matches(matcher, k, text) then matcher(NamePatterns[k], text)
    else FirstCapture(matcher, text, k + 1)
  }

  /**
   * The name `extractName` returns, as a reference definition over the
   * user-only messages: the latest message with any match, its first
   * matching pattern, title-cased.
   */
  function ExtractedName(users: seq<string>, matcher: NameMatcher): Option<string>
  {
    if |users| == 0 then None
    else
      var capture := FirstCapture(matcher, users[|users| - 1], 0);
      if capture.Some? then Some(TitleCase(capture.value))
      else ExtractedName(users[..|users| - 1], matcher)
  }

  lemma {:induction false} FirstCaptureAt(matcher: NameMatcher, text: string, k0: nat, k: nat)
    requires k0 <= k < |NamePatterns| && Matches(matcher, k, text)
    requires forall k' :: k0 <= k' < k ==> !Matches(matcher, k', text)
    ensures FirstCapture(matcher, text, k0) == matcher(NamePatterns[k], text)
    decreases k - k0
  {
    if k0 < k {
      FirstCaptureAt(matcher, text, k0 + 1, k);
    }
  }

  lemma {:induction false} FirstCaptureNone(matcher: NameMatcher, text: string, k0: nat)
    requires k0 <= |NamePatterns|
    requires forall k :: k0 <= k < |NamePatterns| ==> !Matches(matcher, k, text)
    ensures FirstCapture(matcher, text, k0).None?
    decreases |NamePatterns| - k0
  {
    if k0 < |NamePatterns| {
      FirstCaptureNone(matcher, text, k0 + 1);
    }
  }

  /** At the first match in scan order, the reference definition is that capture, title-cased. */
  lemma {:induction false} ExtractedNameAt(users: seq<string>, matcher: NameMatcher, i: int, k: int)
    requires NameFoundAt(users, matcher, i, k)
    ensures ExtractedName(users, matcher) == Some(TitleCase(matcher(NamePatterns[k], users[i]).value))
    decreases |users|
  {
    var n := |users|;
    if i == n - 1 {
      FirstCaptureAt(matcher, users[i], 0, k);
      assert ExtractedName(users, matcher) == Some(TitleCase(FirstCapture(matcher, users[i], 0).value));
    } else {
      FirstCaptureNone(matcher, users[n - 1], 0);
      assert ExtractedName(users, matcher) == ExtractedName(users[..n - 1], matcher);
      NameFoundAtInit(users, matcher, i, k);
      ExtractedNameAt(users[..n - 1], matcher, i, k);
    }
  }

  /** A first match before the last message is still the first match without it. */
  lemma NameFoundAtInit(users: seq<string>, matcher: NameMatcher, i: int, k: int)
    requires NameFoundAt(users, matcher, i, k) && i < |users| - 1
    ensures NameFoundAt(users[..|users| - 1], matcher, i, k)
  {
    var init := users[..|users| - 1];
    assert init[i] == users[i];
    forall j, k' | i < j < |init| && 0 <= k' < |NamePatterns| ensures !Matches(matcher, k', init[j]) {
      assert init[j] == users[j];
    }
  }

  /** A capture is found exactly at the first pattern, from the `k0`-th on, that matches. */
  lemma {:induction false} FirstCaptureSome(matcher: NameMatcher, text: string, k0: nat)
    requires k0 <= |NamePatterns| && FirstCapture(matcher, text, k0).Some?
    ensures exists k :: k0 <= k < |NamePatterns| && Matches(matcher, k, text)
                        && (forall k' :: k0 <= k' < k ==> !Matches(matcher, k', text))
                        && FirstCapture(matcher, text, k0) == matcher(NamePatterns[k], text)
    decreases |NamePatterns| - k0
  {
    if !Matches(matcher, k0, text) {
      FirstCaptureSome(matcher, text, k0 + 1);
    }
  }

  /** No capture means no pattern, from the `k0`-th on, matches. */
  lemma {:induction false} FirstCaptureAbsent(matcher: NameMatcher, text: string, k0: nat)
    requires k0 <= |NamePatterns| && FirstCapture(matcher, text, k0).None?
    ensures forall k :: k0 <= k < |NamePatterns| ==> !Matches(matcher, k, text)
    decreases |NamePatterns| - k0
  {
    if k0 < |NamePatterns| {
      FirstCaptureAbsent(matcher, text, k0 + 1);
    }
  }

  /** A first match in the messages before the last one, which matches nothing, is a first match of all of them. */
  lemma NameFoundAtSnoc(users: seq<string>, matcher: NameMatcher, i: int, k: int)
    requires |users| > 0 && NameFoundAt(users[..|users| - 1], matcher, i, k)
    requires FirstCapture(matcher, users[|users| - 1], 0).None?
    ensures NameFoundAt(users, matcher, i, k)
  {
    FirstCaptureAbsent(matcher, users[|users| - 1], 0);
    var init := users[..|users| - 1];
    assert users[i] == init[i];
    forall j, k' | i < j < |users| && 0 <= k' < |NamePatterns| ensures !Matches(matcher, k', users[j]) {
      if j < |users| - 1 {
        assert users[j] == init[j];
      }
    }
  }

  /**
   * What the reference definition means: no name iff no pattern matches any
   * user message, and otherwise the title-cased capture of the first match in
   * scan order.
   */
  lemma {:induction false} ExtractedNameMeaning(users: seq<string>, matcher: NameMatcher)
    ensures ExtractedName(users, matcher).None? <==>
      forall i, k :: 0 <= i < |users| && 0 <= k < |NamePatterns| ==> !Matches(matcher, k, users[i])
    ensures ExtractedName(users, matcher).Some? ==>
      exists i, k :: NameFoundAt(users, matcher, i, k)
                     && ExtractedName(users, matcher).value == TitleCase(matcher(NamePatterns[k], users[i]).value)
    decreases |users|
  {
    if |users| > 0 {
      var n, last := |users|, users[|users| - 1];
      if FirstCapture(matcher, last, 0).Some? {
        FirstCaptureSome(matcher, last, 0);
        var k :| 0 <= k < |NamePatterns| && Matches(matcher, k, last)
                 && (forall k' :: 0 <= k' < k ==> !Matches(matcher, k', last))
                 && FirstCapture(matcher, last, 0) == matcher(NamePatterns[k], last);
        assert NameFoundAt(users, matcher, n - 1, k);
      } else {
        var init := users[..n - 1];
        FirstCaptureAbsent(matcher, last, 0);
        ExtractedNameMeaning(init, matcher);
        assert ExtractedName(users, matcher) == ExtractedName(init, matcher);
        assert forall i :: 0 <= i < n - 1 ==> init[i] == users[i];
        if ExtractedName(init, matcher).Some? {
          var i, k :| NameFoundAt(init, matcher, i, k)
                      && ExtractedName(init, matcher).value == TitleCase(matcher(NamePatterns[k], init[i]).value);
          NameFoundAtSnoc(users, matcher, i, k);
        }
      }
    }
  }

  /** The reference definition, read over the user messages of a conversation. */
  lemma ExtractNameResult(messages: seq<Message>, matcher: NameMatcher, name: Option<string>)
    requires name == ExtractedName(UserContents(messages), matcher)
    ensures name.None? <==>
      forall i, k :: 0 <= i < |UserContents(messages)| && 0 <= k < |NamePatterns| ==>
        !Matches(matcher, k, UserContents(messages)[i])
    ensures name.Some? ==>
      exists i, k :: NameFoundAt(UserContents(messages), matcher, i, k)
                     && name.value == TitleCase(matcher(NamePatterns[k], UserContents(messages)[i]).value)
  {
    ExtractedNameMeaning(UserContents(messages), matcher);
  }

  /**
   * `extractName`: scans user messages latest first and, in each, the
   * patterns in order; the first match wins and is title-cased.
   */
  method ExtractName(messages: seq<Message>, matcher: NameMatcher) returns (name: Option<string>)
    ensures name.None? <==>
      forall i, k :: 0 <= i < |UserContents(messages)| && 0 <= k < |NamePatterns| ==>
        !Matches(matcher, k, UserContents(messages)[i])
    ensures name.Some? ==>
      exists i, k :: NameFoundAt(UserContents(messages), matcher, i, k)
                     && name.value == TitleCase(matcher(NamePatterns[k], UserContents(messages)[i]).value)
    ensures name == ExtractedName(UserContents(messages), matcher)
  {
    var users := UserContents(messages);
    var i := |users|;
    assert users[..i] == users;
    while i > 0
      invariant 0 <= i <= |users|
      invariant ExtractedName(users, matcher) == ExtractedName(users[..i], matcher)
    {
      i := i - 1;
      var last := users[..i + 1];
      assert last[i] == users[i] && last[..i] == users[..i];
      var k := 0;
      while k < |NamePatterns|
        invariant 0 <= k <= |NamePatterns|
        invariant FirstCapture(matcher, users[i], 0) == FirstCapture(matcher, users[i], k)
      {
        var found := matcher(NamePatterns[k], users[i]);
        if found.Some? {
          name := Some(TitleCase(found.value));
          assert FirstCapture(matcher, users[i], k) == found;
          assert ExtractedName(last, matcher) == name;
          ExtractNameResult(messages, matcher, name);
          return;
        }
        k := k + 1;
      }
      assert ExtractedName(last, matcher) == ExtractedName(users[..i], matcher);
    }
    name := None;
    ExtractNameResult(messages, matcher, name);
  }

  // ---------------------------------------------------------------- service

  /** The positions of the keywords that occur in the conversation. */
  ghost function MentionedAt(keywords: seq<string>, conversation: string): set<int>
  {
    set k | 0 <= k < |keywords| && Contains(conversation, keywords[k])
  }

  /** The reduce in `determineService`, folding from the left (see `CountMentionedCounts`). */
  function CountMentioned(keywords: seq<string>, conversation: string): nat
  {
    if |keywords| == 0 then 0
    else
      var acc := CountMentioned(keywords[..|keywords| - 1], conversation);
      if Includes(conversation, keywords[|keywords| - 1]) then acc + 1 else acc
  }

  /** The reduce counts the keywords that occur in the conversation. */
  lemma {:induction false} CountMentionedCounts(keywords: seq<string>, conversation: string)
    ensures CountMentioned(keywords, conversation) == |MentionedAt(keywords, conversation)|
    decreases |keywords|
  {
    if |keywords| > 0 {
      CountMentionedCounts(keywords[..|keywords| - 1], conversation);
      MentionedAtSnoc(keywords, conversation);
    }
  }

  /**
   * The count never exceeds the number of keywords; it is positive exactly
   * when some keyword occurs, and full exactly when all do.
   */
  lemma {:induction false} CountMentionedBounds(keywords: seq<string>, conversation: string)
    ensures CountMentioned(keywords, conversation) <= |keywords|
    ensures CountMentioned(keywords, conversation) > 0 <==>
      exists k :: 0 <= k < |keywords| && Contains(conversation, keywords[k])
    ensures CountMentioned(keywords, conversation) == |keywords| <==>
      forall k :: 0 <= k < |keywords| ==> Contains(conversation, keywords[k])
    decreases |keywords|
  {
    if |keywords| > 0 {
      var init := keywords[..|keywords| - 1];
      CountMentionedBounds(init, conversation);
      assert forall k :: 0 <= k < |init| ==> init[k] == keywords[k];
    }
  }

  /** The keyword positions mentioned, split off at the last keyword. */
  lemma MentionedAtSnoc(keywords: seq<string>, conversation: string)
    requires |keywords| > 0
    ensures var n := |keywords|;
      |MentionedAt(keywords, conversation)| == |MentionedAt(keywords[..n - 1], conversation)|
        + (if Contains(conversation, keywords[n - 1]) then 1 else 0)
  {
    var n := |keywords|;
    var before := MentionedAt(keywords[..n - 1], conversation);
    MentionedAtSnocSet(keywords, conversation);
    assert n - 1 !in before;
  }

  lemma MentionedAtSnocSet(keywords: seq<string>, conversation: string)
    requires |keywords| > 0
    ensures var n := |keywords|;
      MentionedAt(keywords, conversation) == MentionedAt(keywords[..n - 1], conversation)
        + (if Contains(conversation, keywords[n - 1]) then {n - 1} else {})
  {
    var n := |keywords|;
    var init := keywords[..n - 1];
    forall k | 0 <= k < n - 1 ensures Contains(conversation, init[k]) == Contains(conversation, keywords[k]) {
      assert init[k] == keywords[k];
    }
  }

  /** A service's score: the number of its keywords, each lowercased, that occur in the conversation. */
  function Score(service: Service, conversation: string): nat
  {
    CountMentioned(LowerAll(service.keywords), conversation)
  }

  /** The score counts exactly the keywords whose lowercased form occurs in the conversation. */
  lemma ScoreCountsKeywords(service: Service, conversation: string)
    ensures Score(service, conversation) ==
      |set k | 0 <= k < |service.keywords| && Contains(conversation, ToLower(service.keywords[k]))|
  {
    var lowered := LowerAll(service.keywords);
    CountMentionedCounts(lowered, conversation);
    assert MentionedAt(lowered, conversation) ==
      set k | 0 <= k < |service.keywords| && Contains(conversation, ToLower(service.keywords[k]));
  }

  /**
   * Lowering the keywords changes no catalog score: every catalog keyword is
   * already lower case.
   */
  lemma ScoreMatchesLoweredKeywords(i: nat, conversation: string)
    requires i < |Services|
    ensures Score(Services[i], conversation) == CountMentioned(Services[i].keywords, conversation)
  {
    KeywordsLowercase();
    assert LowerAll(Services[i].keywords) == Services[i].keywords;
  }

  datatype Scored = Scored(service: Service, score: nat)

  predicate DescendingByScore(xs: seq<Scored>)
  {
    forall i, j :: 0 <= i < j < |xs| ==> xs[i].score >= xs[j].score
  }

  /** Insertion after every element scoring at least as much keeps equal scores in input order. */
  function Insert(x: Scored, sorted: seq<Scored>): (r: seq<Scored>)
    ensures |r| == |sorted| + 1
    ensures multiset(r) == multiset(sorted) + multiset{x}
    ensures r[0] == (if |sorted| > 0 && sorted[0].score >= x.score then sorted[0] else x)
  {
    if |sorted| == 0 then [x]
    else if sorted[0].score >= x.score then
      assert sorted == [sorted[0]] + sorted[1..];
      [sorted[0]] + Insert(x, sorted[1..])
    else
      [x] + sorted
  }

  /** A head scoring at least as much as a descending tail's head keeps the sequence descending. */
  lemma DescendingCons(h: Scored, t: seq<Scored>)
    requires DescendingByScore(t)
    requires |t| > 0 ==> h.score >= t[0].score
    ensures DescendingByScore([h] + t)
  {
    var r := [h] + t;
    forall i, j | 0 <= i < j < |r| ensures r[i].score >= r[j].score {
      assert r[j] == t[j - 1];
      if i > 0 { assert r[i] == t[i - 1]; }
    }
  }

  /** Inserting into a descending sequence keeps it descending. */
  lemma {:induction false} InsertDescending(x: Scored, sorted: seq<Scored>)
    requires DescendingByScore(sorted)
    ensures DescendingByScore(Insert(x, sorted))
  {
    if |sorted| > 0 && sorted[0].score >= x.score {
      var tail := sorted[1..];
      assert DescendingByScore(tail) by {
        forall i, j | 0 <= i < j < |tail| ensures tail[i].score >= tail[j].score {
          assert tail[i] == sorted[i + 1] && tail[j] == sorted[j + 1];
        }
      }
      InsertDescending(x, tail);
      assert |tail| > 0 ==> tail[0] == sorted[1];
      DescendingCons(sorted[0], Insert(x, tail));
    } else if |sorted| > 0 {
      DescendingCons(x, sorted);
    }
  }

  /** The stable descending sort by score (`sort((l, r) => r.score - l.score)`): ordered and a permutation. */
  function SortByScore(xs: seq<Scored>): (r: seq<Scored>)
    ensures DescendingByScore(r)
    ensures multiset(r) == multiset(xs) && |r| == |xs|
  {
    if |xs| == 0 then []
    else
      assert xs == xs[..|xs| - 1] + [xs[|xs| - 1]];
      var sortedInit := SortByScore(xs[..|xs| - 1]);
      InsertDescending(xs[|xs| - 1], sortedInit);
      Insert(xs[|xs| - 1], sortedInit)
  }

  /** Index `i` holds the highest score, and every earlier entry scores strictly less. */
  predicate FirstMax(xs: seq<Scored>, i: int)
  {
    && 0 <= i < |xs|
    && (forall j :: 0 <= j < |xs| ==> xs[j].score <= xs[i].score)
    && (forall j :: 0 <= j < i ==> xs[j].score < xs[i].score)
  }

  /** One step of the sort: the last entry is inserted into the sorted prefix. */
  lemma SortByScoreStep(xs: seq<Scored>)
    requires |xs| > 0
    ensures SortByScore(xs) == Insert(xs[|xs| - 1], SortByScore(xs[..|xs| - 1]))
  {
  }

  /** Extending by one entry moves the first maximum to it only when it scores strictly more. */
  lemma FirstMaxSnoc(xs: seq<Scored>, i0: int)
    requires |xs| > 1 && FirstMax(xs[..|xs| - 1], i0)
    ensures FirstMax(xs, if xs[i0].score >= xs[|xs| - 1].score then i0 else |xs| - 1)
  {
    forall j | 0 <= j < |xs| - 1 ensures xs[..|xs| - 1][j] == xs[j] { }
  }

  /** The head of the stable sort is the earliest entry with the highest score. */
  lemma {:induction false} SortHeadIsFirstMax(xs: seq<Scored>)
    requires |xs| > 0
    ensures exists i :: FirstMax(xs, i) && SortByScore(xs)[0] == xs[i]
  {
    var n := |xs|;
    if n == 1 {
      assert FirstMax(xs, 0);
    } else {
      SortHeadIsFirstMax(xs[..n - 1]);
      var i0 :| FirstMax(xs[..n - 1], i0) && SortByScore(xs[..n - 1])[0] == xs[..n - 1][i0];
      SortByScoreStep(xs);
      FirstMaxSnoc(xs, i0);
      var i := if xs[i0].score >= xs[n - 1].score then i0 else n - 1;
      assert FirstMax(xs, i) && SortByScore(xs)[0] == xs[i];
    }
  }

  function ScoreAll(conversation: string): seq<Scored>
  {
    seq(|Services|, i requires 0 <= i < |Services| => Scored(Services[i], Score(Services[i], conversation)))
  }

  /** `determineService`: the head of the scores sorted by decreasing score, if that score is positive. */
  function DetermineService(conversation: string): (r: Option<Service>)
    ensures r.Some? ==> r.value in Services
  {
    var sorted := SortByScore(ScoreAll(conversation));
    assert sorted[0] in multiset(sorted);
    if sorted[0].score > 0 then Some(sorted[0].service) else None
  }

  /**
   * The recognised service is the catalog service with the highest keyword
   * score, ties going to the earliest in the catalog, and there is none
   * exactly when no keyword occurs in the conversation.
   */
  lemma DetermineServiceIsBest(conversation: string)
    ensures DetermineService(conversation).Some? <==>
      exists i :: 0 <= i < |Services| && Score(Services[i], conversation) > 0
    ensures DetermineService(conversation).Some? ==>
      exists i :: (0 <= i < |Services| && DetermineService(conversation).value == Services[i]
        && (forall j :: 0 <= j < |Services| ==> Score(Services[j], conversation) <= Score(Services[i], conversation))
        && (forall j :: 0 <= j < i ==> Score(Services[j], conversation) < Score(Services[i], conversation)))
  {
    var scored := ScoreAll(conversation);
    SortHeadIsFirstMax(scored);
    var i :| FirstMax(scored, i) && SortByScore(scored)[0] == scored[i];
    assert DetermineService(conversation) == if scored[i].score > 0 then Some(Services[i]) else None;
    forall j | 0 <= j < |Services|
      ensures Score(Services[j], conversation) <= Score(Services[i], conversation)
    {
      assert scored[j].score <= scored[i].score;
    }
    forall j | 0 <= j < i
      ensures Score(Services[j], conversation) < Score(Services[i], conversation)
    {
      assert scored[j].score < scored[i].score;
    }
  }

  // ---------------------------------------------------------------- rounding

  const MsPerSecond := 1000
  const MsPerMinute := 60000
  const MsPerHour := 3600000
  const SlotMs := 30 * MsPerMinute
  const HalfSlotMs := 15 * MsPerMinute

  /** A JavaScript `Date`, as local milliseconds since 1970-01-01 00:00 local time. */
  class Instant {
    var millis: int

    constructor (ms: int)
      ensures millis == ms
    {
      millis := ms;
    }

    /** `getMinutes()`: the minute within the hour. */
    function Minutes(): (m: int)
      reads this
      ensures m == MinuteOfHour(millis)
      ensures 0 <= m < 60
      ensures millis == (millis / MsPerHour) * MsPerHour + m * MsPerMinute + millis % MsPerMinute
    {
      HourMinuteSplit(millis);
      MinuteOfHour(millis)
    }

    /** `setMinutes(min, sec, ms)`: same hour, new minute, second and millisecond (minute 60 rolls over). */
    method SetMinutes(min: int, sec: int, ms: int)
      modifies this
      ensures millis == old(millis) - old(millis) % MsPerHour + min * MsPerMinute + sec * MsPerSecond + ms
    {
      millis := millis - millis % MsPerHour + min * MsPerMinute + sec * MsPerSecond + ms;
    }

    /** `setSeconds(sec, ms)`: same minute, new second and millisecond. */
    method SetSeconds(sec: int, ms: int)
      modifies this
      ensures millis == old(millis) - old(millis) % MsPerMinute + sec * MsPerSecond + ms
    {
      millis := millis - millis % MsPerMinute + sec * MsPerSecond + ms;
    }
  }

  /**
   * Reference definition: the half-hour boundary nearest to `t`, an exact
   * quarter past rounding up.
   */
  function NearestSlotMillis(t: int): (r: int)
    ensures r % SlotMs == 0
    ensures t - HalfSlotMs < r <= t + HalfSlotMs
  {
    (t + HalfSlotMs) - (t + HalfSlotMs) % SlotMs
  }

  /** The multiple of the slot length lying in `(t - 15 min, t + 15 min]` is the nearest slot boundary. */
  lemma NearestSlotAt(t: int, k: int)
    requires t - HalfSlotMs < k * SlotMs <= t + HalfSlotMs
    ensures k * SlotMs == NearestSlotMillis(t)
  {
    var n := NearestSlotMillis(t);
    var b := n / SlotMs;
    assert n == b * SlotMs;
    assert (k - b) * SlotMs < SlotMs && (b - k) * SlotMs < SlotMs;
  }

  /** Only one half-hour boundary lies in `(t - 15 min, t + 15 min]`. */
  lemma NearestSlotUnique(t: int, r: int)
    requires r % SlotMs == 0 && t - HalfSlotMs < r <= t + HalfSlotMs
    ensures r == NearestSlotMillis(t)
  {
    assert r == (r / SlotMs) * SlotMs;
    NearestSlotAt(t, r / SlotMs);
  }

  /** Rounding an already rounded instant changes nothing. */
  lemma NearestSlotIdempotent(t: int)
    ensures NearestSlotMillis(NearestSlotMillis(t)) == NearestSlotMillis(t)
  {
    NearestSlotUnique(NearestSlotMillis(t), NearestSlotMillis(t));
  }

  /** The minute within the hour, as `getMinutes()` reads it. */
  function MinuteOfHour(t: int): int
  {
    (t / MsPerMinute) % 60
  }

  /** `t` as whole hours, minute of the hour and leftover seconds and milliseconds. */
  lemma HourMinuteSplit(t: int)
    ensures t - t % MsPerHour == (t / MsPerHour) * MsPerHour
    ensures t == (t / MsPerHour) * MsPerHour + MinuteOfHour(t) * MsPerMinute + t % MsPerMinute
    ensures 0 <= MinuteOfHour(t) < 60 && 0 <= t % MsPerMinute < MsPerMinute
  {
    var q := t / MsPerHour;
    var rem := t % MsPerHour;
    var m := rem / MsPerMinute;
    var sms := rem % MsPerMinute;
    assert t == (q * 60 + m) * MsPerMinute + sms;
    assert t / MsPerMinute == q * 60 + m;
    assert t % MsPerMinute == sms;
    assert MinuteOfHour(t) == m;
  }

  /**
   * A minute-of-hour remainder below 15 rounds down within the hour, 15 or
   * more rounds up (possibly into the next hour); an instant already on a
   * half hour keeps its minute and loses only its seconds.
   */
  lemma NearestSlotByMinute(t: int)
    ensures MinuteOfHour(t) % 30 < 15 ==> NearestSlotMillis(t) == t - t % MsPerMinute - (MinuteOfHour(t) % 30) * MsPerMinute
    ensures MinuteOfHour(t) % 30 >= 15 ==> NearestSlotMillis(t) == t - t % MsPerMinute + (30 - MinuteOfHour(t) % 30) * MsPerMinute
    ensures MinuteOfHour(t) % 30 == 0 ==> NearestSlotMillis(t) == t - t % MsPerMinute
  {
    HourMinuteSplit(t);
    var q := t / MsPerHour;
    var m := MinuteOfHour(t);
    var half := if m < 30 then 0 else 1;
    var rem := m - 30 * half;
    assert rem == m % 30;
    if rem < 15 {
      NearestSlotAt(t, 2 * q + half);
    } else {
      NearestSlotAt(t, 2 * q + half + 1);
    }
  }

  /** `roundToNearestSlot`: moves the date in place to the nearest half hour, seconds and milliseconds zeroed. */
  method RoundToNearestSlot(date: Instant)
    modifies date
    ensures date.millis == NearestSlotMillis(old(date.millis))
    ensures date.millis % SlotMs == 0
  {
    ghost var t := date.millis;
    NearestSlotByMinute(t);
    HourMinuteSplit(t);
    var minutes := date.Minutes();
    var remainder := minutes % 30;

    if remainder == 0 {
      date.SetSeconds(0, 0);
      return;
    }

    if remainder < 15 {
      date.SetMinutes(minutes - remainder, 0, 0);
    } else {
      date.SetMinutes(minutes + (30 - remainder), 0, 0);
    }
    assert date.millis == NearestSlotMillis(t);
    assert date.millis % MsPerMinute == 0;
    date.SetSeconds(0, 0);
  }
}
