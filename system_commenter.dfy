/**
 * `Card::Eventable::SystemCommenter`: the comment the system user leaves on a
 * card when one of its events happens. `comment_body` picks a body by the
 * event's action; `comment` adds it to the card's comments unless it is blank.
 */
module Eventable {
  import opened Wrappers
  import opened Strings

  const LeftQuote: string := "\U{2018}"
  const RightQuote: string := "\U{2019}"

  /** `Array#to_sentence` with the English connectors " and ", ", " and ", and ". */
  function ToSentence(xs: seq<string>): string {
    if |xs| == 0 then ""
    else if |xs| == 1 then xs[0]
    else if |xs| == 2 then xs[0] + " and " + xs[1]
    else JoinWith(xs[..|xs| - 1], ", ") + ", and " + xs[|xs| - 1]
  }

  /**
   * The event fields the commenter reads: `action`, `creator.name`, the
   * assignees' names (`assignees.pluck(:name)`), `stage_name`, `particulars`
   * and `created_at`. A missing value is `None`, Ruby's `nil`.
   */
  datatype Event = Event(
    action: string,
    creatorName: string,
    assigneeNames: seq<string>,
    stageName: Option<string>,
    particulars: map<string, map<string, string>>,
    createdAt: nat)

  /** A card's closure record; only its `reason` is read. */
  datatype Closure = Closure(reason: Option<string>)

  /** `"#{v}"`: nil interpolates as the empty string. */
  function Interpolate(v: Option<string>): string {
    if v.Some? then v.value else ""
  }

  /** `particulars.dig(outer, inner)` */
  function Dig(p: map<string, map<string, string>>, outer: string, inner: string): Option<string> {
    if outer in p && inner in p[outer] then Some(p[outer][inner]) else None
  }

  /** What `comment_body` evaluates to: a string, nil, or a NoMethodError from `nil.reason`. */
  datatype Body = Text(text: string) | Nil | NoMethodError

  predicate Handled(action: string) {
    action in {"card_assigned", "card_unassigned", "card_staged", "card_closed",
               "card_reopened", "card_title_changed", "card_collection_changed"}
  }

  function Strong(s: string): string {
    "<strong>" + s + "</strong>"
  }

  /** The shape shared by the title and collection bodies: the old value, then the new one, each quoted. */
  function ChangeBody(heading: string, before: string, after: string, creator: string): string {
    Strong(heading) + (" from " + LeftQuote + before + RightQuote + " to " + LeftQuote + after + RightQuote + " by " + creator + ".")
  }

  /** `comment_body`, given the card's closure (`card.closure`), which may be missing. */
  function CommentBody(e: Event, closure: Option<Closure>): Body {
    if e.action == "card_assigned" then
      Text(Strong("Assigned") + (" to " + ToSentence(e.assigneeNames) + " by " + e.creatorName + "."))
    else if e.action == "card_unassigned" then
      Text(Strong("Unassigned") + (" from " + ToSentence(e.assigneeNames) + " by " + e.creatorName + "."))
    else if e.action == "card_staged" then
      Text(Strong("Moved to " + LeftQuote + Interpolate(e.stageName) + RightQuote) + (" by " + e.creatorName + "."))
    else if e.action == "card_closed" then
      if closure.None? then NoMethodError
      else Text(Strong("Closed as " + LeftQuote + Interpolate(closure.value.reason) + RightQuote) + (" by " + e.creatorName))
    else if e.action == "card_reopened" then
      Text(Strong("Reopened") + (" by " + e.creatorName))
    else if e.action == "card_title_changed" then
      Text(ChangeBody("Title changed",
        Interpolate(Dig(e.particulars, "particulars", "old_title")),
        Interpolate(Dig(e.particulars, "particulars", "new_title")), e.creatorName))
    else if e.action == "card_collection_changed" then
      Text(ChangeBody("Moved",
        Interpolate(Dig(e.particulars, "particulars", "old_collection")),
        Interpolate(Dig(e.particulars, "particulars", "new_collection")), e.creatorName))
    else Nil
  }

  /** Ruby's whitespace characters for `String#blank?`. */
  predicate IsSpace(c: char) {
    c == ' ' || c == '\t' || c == '\n' || c == '\r' || c == '\U{000C}' || c == '\U{000B}'
  }

  /** `String#blank?`: empty or whitespace only. */
  predicate IsBlank(s: string) {
    forall i :: 0 <= i < |s| ==> IsSpace(s[i])
  }

  /** `comment_body.present?` */
  predicate Present(b: Body) {
    b.Text? && !IsBlank(b.text)
  }

  /** The comment author: `comment` always writes as `User.system`. */
  datatype Creator = SystemUser

  datatype CommentRecord = CommentRecord(creator: Creator, body: string, createdAt: nat)

  /** What `comment` does: creates a comment, returns nil, or raises. */
  datatype Outcome = Created(comment: CommentRecord) | NotCreated | RaisedNoMethodError

  /** `comment`, as a value: the comment it creates, if any. */
  function CommentFor(e: Event, closure: Option<Closure>): Outcome {
    var body := CommentBody(e, closure);
    if body.NoMethodError? then RaisedNoMethodError
    else if !Present(body) then NotCreated
    else Created(CommentRecord(SystemUser, body.text, e.createdAt))
  }

  /** `comment_body` is nil exactly for actions outside the seven handled ones. */
  lemma BodyNilIffUnhandled(e: Event, closure: Option<Closure>)
    ensures CommentBody(e, closure).Nil? <==> !Handled(e.action)
  {
  }

  /** The only way `comment_body` raises: a `card_closed` event on a card without a closure. */
  lemma BodyRaisesIff(e: Event, closure: Option<Closure>)
    ensures CommentBody(e, closure).NoMethodError? <==> e.action == "card_closed" && closure.None?
  {
  }

  /** Every body starts with a `<strong>` tag, so none is blank. */
  lemma BodiesArePresent(e: Event, closure: Option<Closure>)
    requires CommentBody(e, closure).Text?
    ensures Present(CommentBody(e, closure))
  {
    var t := CommentBody(e, closure).text;
    assert t[0] == '<';
  }

  /**
   * `comment` creates a comment exactly for the seven handled actions (unless it
   * raises on a closed card without closure), always by the system user and
   * dated at the event; for any other action it creates nothing.
   */
  lemma CommentCreatedIffHandled(e: Event, closure: Option<Closure>)
    ensures CommentFor(e, closure).Created? <==> Handled(e.action) && !(e.action == "card_closed" && closure.None?)
    ensures CommentFor(e, closure).Created? ==>
      && CommentFor(e, closure).comment.creator == SystemUser
      && CommentFor(e, closure).comment.createdAt == e.createdAt
      && Text(CommentFor(e, closure).comment.body) == CommentBody(e, closure)
    ensures CommentFor(e, closure).RaisedNoMethodError? <==> e.action == "card_closed" && closure.None?
  {
    BodyNilIffUnhandled(e, closure);
    if CommentBody(e, closure).Text? {
      BodiesArePresent(e, closure);
    }
  }

  /** Every element of the list appears verbatim in its sentence. */
  lemma ToSentenceNamesAll(xs: seq<string>, i: nat)
    requires i < |xs|
    ensures exists k: nat :: OccursAt(xs[i], ToSentence(xs), k)
  {
    var t := ToSentence(xs);
    if |xs| == 1 {
      assert OccursAt(xs[0], t, 0);
    } else if |xs| == 2 {
      if i == 0 {
        assert t[..|xs[0]|] == xs[0];
        assert OccursAt(xs[0], t, 0);
      } else {
        assert t[|t| - |xs[1]|..] == xs[1];
        assert OccursAt(xs[1], t, |t| - |xs[1]|);
      }
    } else if i == |xs| - 1 {
      assert t[|t| - |xs[i]|..] == xs[i];
      assert OccursAt(xs[i], t, |t| - |xs[i]|);
    } else {
      var init := xs[..|xs| - 1];
      JoinWithContains(init, ", ", i);
      var k: nat :| OccursAt(init[i], JoinWith(init, ", "), k);
      assert t[k..k + |xs[i]|] == JoinWith(init, ", ")[k..k + |xs[i]|];
      assert OccursAt(xs[i], t, k);
    }
  }

  /** A character that no name holds, and that is not a letter of the connectors, is not in the sentence. */
  lemma ToSentenceAvoids(xs: seq<string>, c: char)
    requires c !in " and ," && forall i :: 0 <= i < |xs| ==> c !in xs[i]
    ensures c !in ToSentence(xs)
  {
    if 2 < |xs| {
      JoinWithAvoids(xs[..|xs| - 1], ", ", c);
    }
  }

  /** Drop everything up to and including the first '>', which closes a tag. */
  function SkipTag(s: string): (r: string)
    ensures |r| <= |s|
  {
    if s == [] then []
    else if s[0] == '>' then s[1..]
    else SkipTag(s[1..])
  }

  /** `to_plain_text` of a rich-text body: the text with every `<...>` tag removed. */
  function PlainText(s: string): string
    decreases |s|
  {
    if s == [] then []
    else if s[0] == '<' then PlainText(SkipTag(s[1..]))
    else [s[0]] + PlainText(s[1..])
  }

  lemma {:induction false} SkipTagAppend(inner: string, rest: string)
    requires '>' !in inner
    ensures SkipTag(inner + ">" + rest) == rest
  {
    if inner != [] {
      assert (inner + ">" + rest)[1..] == inner[1..] + ">" + rest;
      SkipTagAppend(inner[1..], rest);
    }
  }

  lemma {:induction false} PlainTextAppend(a: string, b: string)
    requires '<' !in a
    ensures PlainText(a + b) == a + PlainText(b)
  {
    if a == [] {
      assert a + b == b;
    } else {
      assert (a + b)[1..] == a[1..] + b;
      PlainTextAppend(a[1..], b);
    }
  }

  /** Text without '<' is its own plain text. */
  lemma PlainTextOfTagFree(a: string)
    requires '<' !in a
    ensures PlainText(a) == a
  {
    PlainTextAppend(a, []);
    assert a + [] == a;
  }

  /** The plain text of a `<strong>` span followed by more text keeps the span's words. */
  lemma PlainTextStrong(x: string, rest: string)
    requires '<' !in x
    ensures PlainText(Strong(x) + rest) == x + PlainText(rest)
  {
    var tail := x + "</strong>" + rest;
    assert Strong(x) + rest == "<" + ("strong" + ">" + tail);
    assert ("<" + ("strong" + ">" + tail))[1..] == "strong" + ">" + tail;
    SkipTagAppend("strong", tail);
    assert tail == x + ("</strong>" + rest);
    PlainTextAppend(x, "</strong>" + rest);
    assert ("</strong>" + rest)[1..] == "/strong" + ">" + rest;
    SkipTagAppend("/strong", rest);
  }

  /** No value the commenter interpolates contains a '<'. */
  predicate NoTags(e: Event, closure: Option<Closure>) {
    && '<' !in e.creatorName
    && (forall i :: 0 <= i < |e.assigneeNames| ==> '<' !in e.assigneeNames[i])
    && '<' !in Interpolate(e.stageName)
    && (closure.Some? ==> '<' !in Interpolate(closure.value.reason))
    && (forall o, i :: o in e.particulars && i in e.particulars[o] ==> '<' !in e.particulars[o][i])
  }

  /** The visible text of a change body. */
  function ChangeSentence(heading: string, before: string, after: string, creator: string): string {
    heading + (" from " + LeftQuote + before + RightQuote + " to " + LeftQuote + after + RightQuote + " by " + creator + ".")
  }

  /** The sentence a reader sees for each handled event, as the tests pin it down. */
  function Sentence(e: Event, closure: Option<Closure>): string
    requires Handled(e.action) && !(e.action == "card_closed" && closure.None?)
  {
    var who := e.creatorName;
    match e.action
    case "card_assigned" => "Assigned" + (" to " + ToSentence(e.assigneeNames) + " by " + who + ".")
    case "card_unassigned" => "Unassigned" + (" from " + ToSentence(e.assigneeNames) + " by " + who + ".")
    case "card_staged" => "Moved to " + LeftQuote + Interpolate(e.stageName) + RightQuote + (" by " + who + ".")
    case "card_closed" => "Closed as " + LeftQuote + Interpolate(closure.value.reason) + RightQuote + (" by " + who)
    case "card_reopened" => "Reopened" + (" by " + who)
    case "card_title_changed" =>
      ChangeSentence("Title changed", Interpolate(Dig(e.particulars, "particulars", "old_title")),
        Interpolate(Dig(e.particulars, "particulars", "new_title")), who)
    case _ =>
      ChangeSentence("Moved", Interpolate(Dig(e.particulars, "particulars", "old_collection")),
        Interpolate(Dig(e.particulars, "particulars", "new_collection")), who)
  }

  lemma DigNoTags(e: Event, closure: Option<Closure>, inner: string)
    requires NoTags(e, closure)
    ensures '<' !in Interpolate(Dig(e.particulars, "particulars", inner))
  {
  }

  /** With a '<'-free heading and values, a change body reads heading, old value, new value. */
  lemma PlainChangeBody(heading: string, before: string, after: string, creator: string)
    requires '<' !in heading && '<' !in before && '<' !in after && '<' !in creator
    ensures PlainText(ChangeBody(heading, before, after, creator)) == ChangeSentence(heading, before, after, creator)
  {
    var rest := " from " + LeftQuote + before + RightQuote + " to " + LeftQuote + after + RightQuote + " by " + creator + ".";
    PlainTextStrong(heading, rest);
    PlainTextOfTagFree(rest);
  }

  /** The plain text of a `<strong>` heading and a '<'-free remainder is the two, joined. */
  lemma PlainStrongThen(head: string, rest: string)
    requires '<' !in head && '<' !in rest
    ensures PlainText(Strong(head) + rest) == head + rest
  {
    PlainTextStrong(head, rest);
    PlainTextOfTagFree(rest);
  }

  lemma PlainAssignment(e: Event, closure: Option<Closure>)
    requires e.action == "card_assigned" || e.action == "card_unassigned"
    requires NoTags(e, closure)
    ensures CommentBody(e, closure).Text?
    ensures PlainText(CommentBody(e, closure).text) == Sentence(e, closure)
  {
    ToSentenceAvoids(e.assigneeNames, '<');
    if e.action == "card_assigned" {
      PlainStrongThen("Assigned", " to " + ToSentence(e.assigneeNames) + " by " + e.creatorName + ".");
    } else {
      PlainStrongThen("Unassigned", " from " + ToSentence(e.assigneeNames) + " by " + e.creatorName + ".");
    }
  }

  lemma PlainStageOrClosure(e: Event, closure: Option<Closure>)
    requires e.action == "card_staged" || e.action == "card_closed" || e.action == "card_reopened"
    requires !(e.action == "card_closed" && closure.None?)
    requires NoTags(e, closure)
    ensures CommentBody(e, closure).Text?
    ensures PlainText(CommentBody(e, closure).text) == Sentence(e, closure)
  {
    if e.action == "card_staged" {
      PlainStrongThen("Moved to " + LeftQuote + Interpolate(e.stageName) + RightQuote, " by " + e.creatorName + ".");
    } else if e.action == "card_closed" {
      PlainStrongThen("Closed as " + LeftQuote + Interpolate(closure.value.reason) + RightQuote, " by " + e.creatorName);
    } else {
      PlainStrongThen("Reopened", " by " + e.creatorName);
    }
  }

  lemma PlainChange(e: Event, closure: Option<Closure>)
    requires e.action == "card_title_changed" || e.action == "card_collection_changed"
    requires NoTags(e, closure)
    ensures CommentBody(e, closure).Text?
    ensures PlainText(CommentBody(e, closure).text) == Sentence(e, closure)
  {
    var p := e.particulars;
    if e.action == "card_title_changed" {
      DigNoTags(e, closure, "old_title");
      DigNoTags(e, closure, "new_title");
      PlainChangeBody("Title changed", Interpolate(Dig(p, "particulars", "old_title")),
        Interpolate(Dig(p, "particulars", "new_title")), e.creatorName);
    } else {
      DigNoTags(e, closure, "old_collection");
      DigNoTags(e, closure, "new_collection");
      PlainChangeBody("Moved", Interpolate(Dig(p, "particulars", "old_collection")),
        Interpolate(Dig(p, "particulars", "new_collection")), e.creatorName);
    }
  }

  /**
   * When no interpolated value holds a '<', the plain text of every handled
   * body is the sentence the tests expect: the markup only wraps the leading words.
   */
  lemma PlainTextIsSentence(e: Event, closure: Option<Closure>)
    requires Handled(e.action) && !(e.action == "card_closed" && closure.None?)
    requires NoTags(e, closure)
    ensures CommentBody(e, closure).Text?
    ensures PlainText(CommentBody(e, closure).text) == Sentence(e, closure)
  {
    if e.action == "card_assigned" || e.action == "card_unassigned" {
      PlainAssignment(e, closure);
    } else if e.action == "card_staged" || e.action == "card_closed" || e.action == "card_reopened" {
      PlainStageOrClosure(e, closure);
    } else {
      PlainChange(e, closure);
    }
  }

  /** `card_closed` and `card_reopened` bodies end with " by " and the creator's name, with no period after it. */
  lemma ClosingBodiesEndWithCreator(e: Event, closure: Option<Closure>)
    requires e.action == "card_closed" || e.action == "card_reopened"
    requires CommentBody(e, closure).Text?
    ensures EndsWith(CommentBody(e, closure).text, " by " + e.creatorName)
  {
    var head := if e.action == "card_closed" then "Closed as " + LeftQuote + Interpolate(closure.value.reason) + RightQuote else "Reopened";
    EndsWithSelf(Strong(head), " by " + e.creatorName);
  }

  /** `q + " by " + c + "."` ends with `" by " + c + "."`. */
  lemma SignedOff(q: string, c: string)
    ensures EndsWith(q + " by " + c + ".", " by " + c + ".")
  {
    EndsWithSelf(q, " by ");
    EndsWithExtend(q + " by ", " by ", c);
    EndsWithExtend(q + " by " + c, " by " + c, ".");
  }

  /** The other five bodies end with " by ", the creator's name and a period. */
  lemma OtherBodiesEndWithPeriod(e: Event, closure: Option<Closure>)
    requires Handled(e.action) && e.action != "card_closed" && e.action != "card_reopened"
    ensures CommentBody(e, closure).Text?
    ensures EndsWith(CommentBody(e, closure).text, " by " + e.creatorName + ".")
  {
    var c := e.creatorName;
    var p := e.particulars;
    if e.action == "card_assigned" {
      SignedOff(" to " + ToSentence(e.assigneeNames), c);
      EndsWithPrepend(Strong("Assigned"), " to " + ToSentence(e.assigneeNames) + " by " + c + ".", " by " + c + ".");
    } else if e.action == "card_unassigned" {
      SignedOff(" from " + ToSentence(e.assigneeNames), c);
      EndsWithPrepend(Strong("Unassigned"), " from " + ToSentence(e.assigneeNames) + " by " + c + ".", " by " + c + ".");
    } else if e.action == "card_staged" {
      EndsWithSelf(Strong("Moved to " + LeftQuote + Interpolate(e.stageName) + RightQuote), " by " + c + ".");
    } else {
      var h := if e.action == "card_title_changed" then "Title changed" else "Moved";
      var before := Interpolate(Dig(p, "particulars", if e.action == "card_title_changed" then "old_title" else "old_collection"));
      var after := Interpolate(Dig(p, "particulars", if e.action == "card_title_changed" then "new_title" else "new_collection"));
      var q := " from " + LeftQuote + before + RightQuote + " to " + LeftQuote + after + RightQuote;
      SignedOff(q, c);
      EndsWithPrepend(Strong(h), q + " by " + c + ".", " by " + c + ".");
      assert CommentBody(e, closure).text == ChangeBody(h, before, after, c);
    }
  }

  /**
   * A change body determines the old and the new value, provided neither holds a
   * closing quote: no two different (old, new) pairs give the same comment.
   */
  lemma ChangeBodyDeterminesValues(heading: string, b1: string, a1: string, b2: string, a2: string, creator: string)
    requires '\U{2019}' !in b1 && '\U{2019}' !in b2 && '\U{2019}' !in a1 && '\U{2019}' !in a2
    requires ChangeBody(heading, b1, a1, creator) == ChangeBody(heading, b2, a2, creator)
    ensures b1 == b2 && a1 == a2
  {
    var pre := Strong(heading) + " from " + LeftQuote;
    var mid := " to " + LeftQuote;
    var post := " by " + creator + ".";
    var q := '\U{2019}';
    assert RightQuote == [q];
    Regroup(Strong(heading), " from ", LeftQuote, b1, RightQuote, " to ", a1, " by ", creator, ".");
    Regroup(Strong(heading), " from ", LeftQuote, b2, RightQuote, " to ", a2, " by ", creator, ".");
    PrefixCancel(pre, b1 + [q] + (mid + (a1 + [q] + post)), b2 + [q] + (mid + (a2 + [q] + post)));
    QuotedPairCancel(b1, a1, b2, a2, q, mid, post);
  }

  /** The pieces of a change body, regrouped around the two quoted values. */
  lemma Regroup(h: string, f: string, l: string, b: string, r: string, t: string, a: string, y: string, c: string, d: string)
    ensures h + (f + l + b + r + t + l + a + r + y + c + d) == (h + f + l) + (b + r + ((t + l) + (a + r + (y + c + d))))
  {
  }

  /** Two values each closed by `q`, with `mid` between them, are read back uniquely when neither holds `q`. */
  lemma QuotedPairCancel(b1: string, a1: string, b2: string, a2: string, q: char, mid: string, post: string)
    requires q !in b1 && q !in b2 && q !in a1 && q !in a2
    requires b1 + [q] + (mid + (a1 + [q] + post)) == b2 + [q] + (mid + (a2 + [q] + post))
    ensures b1 == b2 && a1 == a2
  {
    DelimiterSplits(b1, mid + (a1 + [q] + post), b2, mid + (a2 + [q] + post), q);
    PrefixCancel(mid, a1 + [q] + post, a2 + [q] + post);
    DelimiterSplits(a1, post, a2, post, q);
  }

  /** The five test cases: each event's comment reads as the test expects. */
  lemma AssignedTest(when: nat)
    ensures var e := Event("card_assigned", "David", ["Kevin"], None, map[], when);
      PlainText(CommentBody(e, None).text) == "Assigned to Kevin by David."
  {
    var e := Event("card_assigned", "David", ["Kevin"], None, map[], when);
    PlainTextIsSentence(e, None);
  }

  lemma UnassignedTest(when: nat)
    ensures var e := Event("card_unassigned", "David", ["Kevin"], None, map[], when);
      PlainText(CommentBody(e, None).text) == "Unassigned from Kevin by David."
  {
    var e := Event("card_unassigned", "David", ["Kevin"], None, map[], when);
    PlainTextIsSentence(e, None);
  }

  lemma StagedTest(when: nat)
    ensures var e := Event("card_staged", "David", [], Some("In progress"), map[], when);
      PlainText(CommentBody(e, None).text) == "Moved to \U{2018}In progress\U{2019} by David."
  {
    var e := Event("card_staged", "David", [], Some("In progress"), map[], when);
    PlainTextIsSentence(e, None);
  }

  lemma ClosedTest(when: nat)
    ensures var e := Event("card_closed", "David", [], None, map[], when);
      PlainText(CommentBody(e, Some(Closure(Some("Done")))).text) == "Closed as \U{2018}Done\U{2019} by David"
  {
    var e := Event("card_closed", "David", [], None, map[], when);
    PlainTextIsSentence(e, Some(Closure(Some("Done"))));
  }

  lemma TitleChangedTest(when: nat)
    ensures var p := map["particulars" := map["old_title" := "The text is too small", "new_title" := "Make text larger"]];
      var e := Event("card_title_changed", "David", [], None, p, when);
      PlainText(CommentBody(e, None).text)
        == "Title changed" + (" from " + LeftQuote + "The text is too small" + RightQuote
          + " to " + LeftQuote + "Make text larger" + RightQuote + " by " + "David" + ".")
  {
    var p := map["particulars" := map["old_title" := "The text is too small", "new_title" := "Make text larger"]];
    var e := Event("card_title_changed", "David", [], None, p, when);
    assert Dig(p, "particulars", "old_title") == Some("The text is too small");
    assert Dig(p, "particulars", "new_title") == Some("Make text larger");
    assert CommentBody(e, None).text == ChangeBody("Title changed", "The text is too small", "Make text larger", "David");
    PlainChangeBody("Title changed", "The text is too small", "Make text larger", "David");
  }

  /** A card's comments, appended to in place. */
  class Card {
    var comments: seq<CommentRecord>
    var closure: Option<Closure>

    constructor (comments: seq<CommentRecord>, closure: Option<Closure>)
      ensures this.comments == comments && this.closure == closure
    {
      this.comments := comments;
      this.closure := closure;
    }
  }

  class SystemCommenter {
    const card: Card
    const event: Event

    constructor (card: Card, event: Event)
      ensures this.card == card && this.event == event
    {
      this.card := card;
      this.event := event;
    }

    /** `comment`: appends the system comment, if there is one, and returns it. */
    method Comment() returns (result: Outcome)
      modifies card
      ensures result == CommentFor(event, old(card.closure))
      ensures card.closure == old(card.closure)
      ensures card.comments == old(card.comments) + (if result.Created? then [result.comment] else [])
    {
      var body := CommentBody(event, card.closure);
      if body.NoMethodError? {
        return RaisedNoMethodError;
      }
      if !Present(body) {
        return NotCreated;
      }
      var c := CommentRecord(SystemUser, body.text, event.createdAt);
      card.comments := card.comments + [c];
      result := Created(c);
    }
  }
}
