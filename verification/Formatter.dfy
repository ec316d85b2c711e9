/** `format_delivery_message`: the Telegram HTML message for one timeline cluster. */
module Formatter {
  import opened Basics
  import opened Html
  import opened Truncation

  const MAX_MESSAGE_LENGTH := 4096
  const MAX_BODY_LENGTH := 500

  datatype Entry = Entry(
    title: Option<string>, body: Option<string>, canonicalUrl: Option<string>,
    channelName: string, channelUsername: Option<string>, duplicateCount: int)

  function EscapeChar(c: char): string {
    match c
    case '&' => "&amp;"
    case '<' => "&lt;"
    case '>' => "&gt;"
    case '"' => "&quot;"
    case '\'' => "&#x27;"
    case _ => [c]
  }

  /** `html.escape` with quotes. */
  function Escape(s: string): string {
    if s == "" then "" else EscapeChar(s[0]) + Escape(s[1..])
  }

  /** Reading escaped text back: the five entities stand for their characters. */
  function Unescape(s: string): string {
    if s == "" then ""
    else if "&amp;" <= s then "&" + Unescape(s[5..])
    else if "&lt;" <= s then "<" + Unescape(s[4..])
    else if "&gt;" <= s then ">" + Unescape(s[4..])
    else if "&quot;" <= s then "\"" + Unescape(s[6..])
    else if "&#x27;" <= s then "'" + Unescape(s[6..])
    else [s[0]] + Unescape(s[1..])
  }

  lemma UnescapeChar(c: char, rest: string)
    ensures Unescape(EscapeChar(c) + rest) == [c] + Unescape(rest)
  {
    var e := EscapeChar(c);
    assert (e + rest)[|e|..] == rest && e <= e + rest && (e + rest)[0] == e[0] && (|e| > 1 ==> (e + rest)[1] == e[1]);
    if c == '<' || c == '>' || c == '"' || c == '\'' || c == '&' {
      assert c == '>' ==> !("&lt;" <= e + rest);
    } else {
      assert e == [c] && c != '&';
    }
  }

  /** Escaping loses nothing: the reader sees the original text. */
  lemma {:induction false} EscapeRoundTrip(s: string)
    ensures Unescape(Escape(s)) == s
  {
    if s != "" {
      UnescapeChar(s[0], Escape(s[1..]));
      EscapeRoundTrip(s[1..]);
    }
  }

  /** Escaped text of an optional field; missing and empty are the same. */
  function EscapedOr(s: Option<string>): string {
    if s.Some? then Escape(s.value) else ""
  }

  function Digits(n: nat): string {
    if n < 10 then ["0123456789"[n]] else Digits(n / 10) + ["0123456789"[n % 10]]
  }

  function Bold(s: string): string {
    "<b>" + s + "</b>"
  }

  function Link(url: string, s: string): string {
    ("<a href=\"" + url + "\">") + s + "</a>"
  }

  function Join(parts: seq<string>): string {
    if parts == [] then "" else if |parts| == 1 then parts[0]
    else Join(parts[..|parts| - 1]) + "\n\n" + parts[|parts| - 1]
  }

  /** Reading `s` leaves the open tags as they were, whatever they were. */
  ghost predicate Balanced(s: string) {
    forall open: seq<string> :: Nest(s, open) == Some(open)
  }

  lemma PlainIsBalanced(s: string)
    requires IsPlain(s)
    ensures Balanced(s)
  {
    forall open: seq<string> ensures Nest(s, open) == Some(open) {
      NestPlain(s, open);
    }
  }

  lemma BalancedConcat(s: string, t: string)
    requires Balanced(s) && Balanced(t)
    ensures Balanced(s + t)
  {
    forall open: seq<string> ensures Nest(s + t, open) == Some(open) {
      NestConcat(s, t, open);
    }
  }

  /** A start tag, balanced content and the matching closer are balanced. */
  lemma Wrapped(start: string, name: string, s: string)
    requires IsName(name) && Balanced(s)
    requires forall open: seq<string> :: Nest(start, open) == Some(open + [name])
    ensures Balanced(start + s + Closer(name))
  {
    forall open: seq<string> ensures Nest(start + s + Closer(name), open) == Some(open) {
      NestConcat(start, s, open);
      NestConcat(start + s, Closer(name), open);
      CloserNests(name, open);
    }
  }

  lemma BoldIsBalanced(s: string)
    requires Balanced(s)
    ensures Balanced(Bold(s))
  {
    forall open: seq<string> ensures Nest("<b>", open) == Some(open + ["b"]) {
      var tag := "<b>";
      NameEndAt(tag, 1, 2);
      assert TagLength(tag) == 3 && tag[..3] == tag && tag[3..] == "";
      assert Lower(tag[1..2]) == "b";
    }
    assert Lower("b") == "b";
    Wrapped("<b>", "b", s);
    assert Closer("b") == "</b>";
  }

  lemma LinkStart(url: string, open: seq<string>)
    requires IsPlain(url)
    ensures Nest("<a href=\"" + url + "\">", open) == Some(open + ["a"])
  {
    var tag := "<a href=\"" + url + "\">";
    var n := |tag|;
    NameEndAt(tag, 1, 2);
    FindGtAt(tag, 2, n - 1);
    assert TagLength(tag) == n && tag[..n] == tag && tag[n..] == "";
    assert !IsClosing(tag) && !IsSelfClosing(tag) by {
      assert tag[1] == 'a' && tag[n - 2] == '"';
      assert tag[..2][1] == 'a' && tag[n - 2..][0] == '"';
    }
    assert Lower(tag[1..2]) == "a";
  }

  lemma LinkIsBalanced(url: string, s: string)
    requires IsPlain(url) && Balanced(s)
    ensures Balanced(Link(url, s))
  {
    forall open: seq<string> ensures Nest("<a href=\"" + url + "\">", open) == Some(open + ["a"]) {
      LinkStart(url, open);
    }
    assert Lower("a") == "a";
    Wrapped("<a href=\"" + url + "\">", "a", s);
    assert Closer("a") == "</a>";
  }

  lemma PlainConcat(s: string, t: string)
    requires IsPlain(s) && IsPlain(t)
    ensures IsPlain(s + t)
  {
  }

  /** Escaped text has no angle bracket. */
  lemma {:induction false} EscapeIsPlain(s: string)
    ensures IsPlain(Escape(s))
  {
    if s != "" {
      EscapeIsPlain(s[1..]);
      PlainConcat(EscapeChar(s[0]), Escape(s[1..]));
    }
  }

  lemma {:induction false} DigitsArePlain(n: nat)
    ensures IsPlain(Digits(n))
  {
    if n >= 10 {
      DigitsArePlain(n / 10);
    }
  }

  ghost predicate AllBalanced(parts: seq<string>) {
    forall k | 0 <= k < |parts| :: Balanced(parts[k])
  }

  lemma {:induction false} JoinIsBalanced(parts: seq<string>)
    requires AllBalanced(parts)
    ensures Balanced(Join(parts))
  {
    if |parts| == 0 {
      PlainIsBalanced("");
    } else if |parts| > 1 {
      var rest := parts[..|parts| - 1];
      JoinIsBalanced(rest);
      PlainIsBalanced("\n\n");
      BalancedConcat(Join(rest), "\n\n");
      BalancedConcat(Join(rest) + "\n\n", parts[|parts| - 1]);
    }
  }

  /** The title line: bold title, linked when there is a URL; a bare link without a title. */
  function TitlePart(title: string, url: string): string {
    var bold := if title == "" then "" else Bold(title);
    if url == "" then bold else Link(url, if bold == "" then url else bold)
  }

  /** The attribution line: channel, optional username, and a count when there are duplicates. */
  function Attribution(name: string, username: string, duplicates: int): string {
    var via := if username == "" then "via " + name else "via " + name + " (@" + username + ")";
    if duplicates > 1 then via + (" +" + Digits(duplicates) + " duplicates") else via
  }

  function BodyPart(body: Option<string>): string {
    if body.None? then "" else Escape(if |body.value| > MAX_BODY_LENGTH then body.value[..MAX_BODY_LENGTH]
                                      else body.value)
  }

  function Parts(title: string, body: string, attribution: string): seq<string> {
    (if title == "" then [] else [title]) + (if body == "" then [] else [body]) + [attribution]
  }

  /** The whole message before truncation: title, body and attribution, the empty ones left out. */
  function FullMessage(entry: Entry): string {
    var title := TitlePart(EscapedOr(entry.title), EscapedOr(entry.canonicalUrl));
    var body := BodyPart(entry.body);
    Join(Parts(title, body, Attribution(Escape(entry.channelName), EscapedOr(entry.channelUsername),
                                        entry.duplicateCount)))
  }

  lemma EscapedIsPlain(s: Option<string>)
    ensures IsPlain(EscapedOr(s))
  {
    if s.Some? {
      EscapeIsPlain(s.value);
    }
  }

  lemma TitleIsBalanced(title: string, url: string)
    requires IsPlain(title) && IsPlain(url)
    ensures Balanced(TitlePart(title, url))
  {
    PlainIsBalanced("");
    PlainIsBalanced(title);
    PlainIsBalanced(url);
    BoldIsBalanced(title);
    LinkIsBalanced(url, if title == "" then url else Bold(title));
  }

  lemma AttributionIsPlain(name: string, username: string, duplicates: int)
    requires IsPlain(name) && IsPlain(username)
    ensures IsPlain(Attribution(name, username, duplicates))
  {
    PlainConcat("via ", name);
    PlainConcat("via " + name, " (@");
    PlainConcat("via " + name + " (@", username);
    PlainConcat("via " + name + " (@" + username, ")");
    if duplicates > 1 {
      DigitsArePlain(duplicates);
      PlainConcat(" +", Digits(duplicates));
      PlainConcat(" +" + Digits(duplicates), " duplicates");
      var via := if username == "" then "via " + name else "via " + name + " (@" + username + ")";
      PlainConcat(via, " +" + Digits(duplicates) + " duplicates");
    }
  }

  lemma PartsAreBalanced(entry: Entry)
    ensures Balanced(TitlePart(EscapedOr(entry.title), EscapedOr(entry.canonicalUrl)))
    ensures Balanced(BodyPart(entry.body))
    ensures Balanced(Attribution(Escape(entry.channelName), EscapedOr(entry.channelUsername), entry.duplicateCount))
  {
    EscapedIsPlain(entry.title);
    EscapedIsPlain(entry.canonicalUrl);
    TitleIsBalanced(EscapedOr(entry.title), EscapedOr(entry.canonicalUrl));
    if entry.body.Some? {
      EscapeIsPlain(if |entry.body.value| > MAX_BODY_LENGTH then entry.body.value[..MAX_BODY_LENGTH]
                    else entry.body.value);
    }
    PlainIsBalanced(BodyPart(entry.body));
    EscapeIsPlain(entry.channelName);
    EscapedIsPlain(entry.channelUsername);
    AttributionIsPlain(Escape(entry.channelName), EscapedOr(entry.channelUsername), entry.duplicateCount);
    PlainIsBalanced(Attribution(Escape(entry.channelName), EscapedOr(entry.channelUsername), entry.duplicateCount));
  }

  /** Whatever the user-supplied fields contain, the assembled message is well nested. */
  lemma FullMessageIsWellNested(entry: Entry)
    ensures WellNested(FullMessage(entry))
  {
    var title := TitlePart(EscapedOr(entry.title), EscapedOr(entry.canonicalUrl));
    var body := BodyPart(entry.body);
    var attribution := Attribution(Escape(entry.channelName), EscapedOr(entry.channelUsername), entry.duplicateCount);
    PartsAreBalanced(entry);
    JoinedPartsAreBalanced(title, body, attribution);
    BalancedIsNested(Join(Parts(title, body, attribution)));
  }

  lemma JoinedPartsAreBalanced(title: string, body: string, attribution: string)
    requires Balanced(title) && Balanced(body) && Balanced(attribution)
    ensures Balanced(Join(Parts(title, body, attribution)))
  {
    AllBalancedConcat(if title == "" then [] else [title], if body == "" then [] else [body]);
    AllBalancedConcat((if title == "" then [] else [title]) + (if body == "" then [] else [body]), [attribution]);
    JoinIsBalanced(Parts(title, body, attribution));
  }

  lemma AllBalancedConcat(a: seq<string>, b: seq<string>)
    requires AllBalanced(a) && AllBalanced(b)
    ensures AllBalanced(a + b)
  {
  }

  lemma BalancedIsNested(s: string)
    requires Balanced(s)
    ensures WellNested(s)
  {
  }

  // ----- what the reader sees -----

  lemma {:induction false} EscapeConcat(s: string, t: string)
    ensures Escape(s + t) == Escape(s) + Escape(t)
  {
    if s == "" {
      assert s + t == t;
    } else {
      assert (s + t)[1..] == s[1..] + t;
      EscapeConcat(s[1..], t);
    }
  }

  predicate NeedsNoEscape(s: string) {
    forall k | 0 <= k < |s| :: s[k] !in {'&', '<', '>', '"', '\''}
  }

  lemma {:induction false} EscapeNothing(s: string)
    requires NeedsNoEscape(s)
    ensures Escape(s) == s
  {
    if s != "" {
      EscapeNothing(s[1..]);
    }
  }

  lemma EscapeEmpty(s: string)
    ensures Escape(s) == "" <==> s == ""
  {
  }

  lemma {:induction false} DigitsNeedNoEscape(n: nat)
    ensures NeedsNoEscape(Digits(n)) && Digits(n) != ""
  {
    if n >= 10 {
      DigitsNeedNoEscape(n / 10);
    }
  }

  /** The number a string of decimal digits stands for. */
  function Value(s: string): int {
    if s == "" then 0 else Value(s[..|s| - 1]) * 10 + (s[|s| - 1] as int - '0' as int)
  }

  /** The count is written in decimal: its digits stand for it, without a leading zero. */
  lemma {:induction false} DigitsAreDecimal(n: nat)
    ensures Value(Digits(n)) == n && forall k | 0 <= k < |Digits(n)| :: '0' <= Digits(n)[k] <= '9'
    ensures n > 0 ==> Digits(n)[0] != '0'
  {
    if n < 10 {
      assert "0123456789"[n] as int == '0' as int + n;
      assert Digits(n)[..0] == "";
    } else {
      DigitsAreDecimal(n / 10);
      assert "0123456789"[n % 10] as int == '0' as int + n % 10;
      assert Digits(n)[..|Digits(n)| - 1] == Digits(n / 10);
    }
  }

  /** A part and the blank line after it; nothing for an empty part. */
  function Paragraph(s: string): string {
    if s == "" then "" else s + "\n\n"
  }

  /** The message as a reader sees it: the title, or the URL without one; the first 500 characters of the
      body; and the attribution with channel, username and duplicate count. */
  function VisibleText(entry: Entry): string {
    var heading := if entry.title.Some? && entry.title.value != "" then entry.title.value
                   else if entry.canonicalUrl.Some? then entry.canonicalUrl.value
                   else "";
    var body := if entry.body.None? then ""
                else if |entry.body.value| <= 500 then entry.body.value
                else entry.body.value[..500];
    var username := if entry.channelUsername.Some? && entry.channelUsername.value != "" then
                      " (@" + entry.channelUsername.value + ")"
                    else "";
    var duplicates := if entry.duplicateCount > 1 then " +" + Digits(entry.duplicateCount) + " duplicates" else "";
    Paragraph(heading) + Paragraph(body) + ("via " + entry.channelName + username + duplicates)
  }

  lemma JoinAppend(parts: seq<string>, last: string)
    requires parts != []
    ensures Join(parts + [last]) == Join(parts) + "\n\n" + last
  {
    assert (parts + [last])[..|parts|] == parts;
  }

  lemma JoinOne(a: string)
    ensures Join([a]) == a
  {
  }

  lemma JoinTwo(a: string, b: string)
    ensures Join([a, b]) == a + "\n\n" + b
  {
    JoinOne(a);
    JoinAppend([a], b);
    assert [a] + [b] == [a, b];
  }

  lemma JoinThree(a: string, b: string, c: string)
    ensures Join([a, b, c]) == a + "\n\n" + b + "\n\n" + c
  {
    JoinTwo(a, b);
    JoinAppend([a, b], c);
    assert [a, b] + [c] == [a, b, c];
  }

  /** Joining the non-empty parts is writing them as paragraphs before the attribution. */
  lemma JoinParts(title: string, body: string, attribution: string)
    ensures Join(Parts(title, body, attribution)) == Paragraph(title) + Paragraph(body) + attribution
  {
    if title == "" && body == "" {
      assert Parts(title, body, attribution) == [attribution];
      JoinOne(attribution);
    } else if title == "" {
      assert Parts(title, body, attribution) == [body, attribution];
      JoinTwo(body, attribution);
    } else if body == "" {
      assert Parts(title, body, attribution) == [title, attribution];
      JoinTwo(title, attribution);
      assert Paragraph(title) + Paragraph(body) == Paragraph(title);
    } else {
      assert Parts(title, body, attribution) == [title, body, attribution];
      JoinThree(title, body, attribution);
      RegroupParagraphs(title, body, attribution);
    }
  }

  lemma RegroupParagraphs(a: string, b: string, c: string)
    ensures a + "\n\n" + b + "\n\n" + c == (a + "\n\n") + (b + "\n\n") + c
  {
  }

  lemma StripBalanced(s: string, t: string)
    requires Balanced(s)
    ensures StripTags(s + t) == StripTags(s) + StripTags(t)
  {
    assert Nest(s, []) == Some([]);
    StripConcat(s, t, []);
  }

  lemma StripParagraph(s: string)
    requires Balanced(s)
    ensures Balanced(Paragraph(s)) && (StripTags(s) != "" || s == "" ==>
                                       StripTags(Paragraph(s)) == Paragraph(StripTags(s)))
  {
    PlainIsBalanced("\n\n");
    StripPlain("\n\n");
    if s != "" {
      BalancedConcat(s, "\n\n");
      StripBalanced(s, "\n\n");
    }
  }

  /** An element shows the text of its content. */
  lemma StripElement(start: string, name: string, s: string)
    requires start != "" && TagLength(start) == |start| && Nest(start, []).Some? && IsName(name) && Balanced(s)
    ensures StripTags(start + s + Closer(name)) == StripTags(s)
  {
    StripTag(start);
    StripConcat(start, s + Closer(name), []);
    CloserIsTag(name);
    StripTag(Closer(name));
    StripBalanced(s, Closer(name));
    assert start + (s + Closer(name)) == start + s + Closer(name);
  }

  lemma BoldShows(s: string)
    requires Balanced(s)
    ensures StripTags(Bold(s)) == StripTags(s)
  {
    var tag := "<b>";
    NameEndAt(tag, 1, 2);
    assert TagLength(tag) == 3 && tag[..3] == tag && tag[3..] == "";
    assert Lower("b") == "b" && Closer("b") == "</b>";
    StripElement(tag, "b", s);
  }

  lemma LinkTagIsWhole(url: string)
    requires IsPlain(url)
    ensures var tag := "<a href=\"" + url + "\">"; TagLength(tag) == |tag|
  {
    var tag := "<a href=\"" + url + "\">";
    NameEndAt(tag, 1, 2);
    FindGtAt(tag, 2, |tag| - 1);
  }

  lemma LinkShows(url: string, s: string)
    requires IsPlain(url) && Balanced(s)
    ensures StripTags(Link(url, s)) == StripTags(s)
  {
    var tag := "<a href=\"" + url + "\">";
    LinkTagIsWhole(url);
    LinkStart(url, []);
    assert Lower("a") == "a" && Closer("a") == "</a>";
    StripElement(tag, "a", s);
  }

  /** The title line shows the title, or the URL without one. */
  lemma TitleShows(title: string, url: string)
    requires IsPlain(title) && IsPlain(url)
    ensures StripTags(TitlePart(title, url)) == if title != "" then title else url
    ensures TitlePart(title, url) == "" <==> title == "" && url == ""
  {
    PlainIsBalanced(title);
    PlainIsBalanced(url);
    StripPlain(title);
    StripPlain(url);
    BoldIsBalanced(title);
    BoldShows(title);
    LinkShows(url, if title == "" then url else Bold(title));
  }

  lemma ViaEscapes(name: string, username: string)
    ensures Escape("via " + name + (if username == "" then "" else " (@" + username + ")")) ==
            if Escape(username) == "" then "via " + Escape(name)
                else "via " + Escape(name) + " (@" + Escape(username) + ")"
  {
    EscapeEmpty(username);
    EscapeConcat("via ", name);
    EscapeNothing("via ");
    if username == "" {
      assert "via " + name + "" == "via " + name;
    } else {
      EscapeConcat("via " + name, " (@" + username + ")");
      SuffixEscapes(username);
      Regrouped("via " + Escape(name), " (@", Escape(username), ")");
    }
  }

  lemma Regrouped(a: string, b: string, c: string, d: string)
    ensures a + (b + c + d) == a + b + c + d
  {
  }

  /** The attribution is the escaped form of what a reader sees. */
  lemma AttributionShows(name: string, username: string, duplicates: int)
    ensures Attribution(Escape(name), Escape(username), duplicates) ==
            Escape("via " + name + (if username == "" then "" else " (@" + username + ")")
                   + (if duplicates > 1 then " +" + Digits(duplicates) + " duplicates" else ""))
  {
    var via := "via " + name + (if username == "" then "" else " (@" + username + ")");
    ViaEscapes(name, username);
    CountEscapes(duplicates);
    if duplicates > 1 {
      EscapeConcat(via, " +" + Digits(duplicates) + " duplicates");
    } else {
      assert via + "" == via;
    }
  }

  lemma SuffixEscapes(username: string)
    ensures Escape(" (@" + username + ")") == " (@" + Escape(username) + ")"
  {
    EscapeConcat(" (@" + username, ")");
    EscapeConcat(" (@", username);
    EscapeNothing(" (@");
    EscapeNothing(")");
  }

  lemma CountEscapes(n: int)
    ensures n > 1 ==> Escape(" +" + Digits(n) + " duplicates") == " +" + Digits(n) + " duplicates"
    ensures Escape("") == ""
  {
    if n > 1 {
      DigitsNeedNoEscape(n);
      assert NeedsNoEscape(" +" + Digits(n) + " duplicates");
      EscapeNothing(" +" + Digits(n) + " duplicates");
    }
  }

  lemma ParagraphEscapes(s: string)
    ensures Escape(Paragraph(s)) == Paragraph(Escape(s))
  {
    EscapeEmpty(s);
    EscapeConcat(s, "\n\n");
    EscapeNothing("\n\n");
  }

  lemma ThreeShow(a: string, b: string, c: string)
    requires Balanced(a) && Balanced(b)
    ensures StripTags(a + b + c) == StripTags(a) + StripTags(b) + StripTags(c)
  {
    BalancedConcat(a, b);
    StripBalanced(a + b, c);
    StripBalanced(a, b);
  }

  /** Three paragraphs of balanced parts show the three texts. */
  lemma PartsShow(title: string, body: string, attribution: string)
    requires Balanced(title) && (StripTags(title) == "" ==> title == "") && IsPlain(body) && IsPlain(attribution)
    ensures StripTags(Join(Parts(title, body, attribution))) ==
            Paragraph(StripTags(title)) + Paragraph(body) + attribution
  {
    JoinParts(title, body, attribution);
    PlainIsBalanced(body);
    StripPlain(body);
    StripPlain(attribution);
    StripParagraph(title);
    StripParagraph(body);
    ThreeShow(Paragraph(title), Paragraph(body), attribution);
  }

  function TextOr(s: Option<string>): string {
    if s.Some? then s.value else ""
  }

  /** What a reader sees of the assembled message, whatever the fields contain. */
  lemma FullMessageShows(entry: Entry)
    ensures StripTags(FullMessage(entry)) == Escape(VisibleText(entry))
    ensures Unescape(StripTags(FullMessage(entry))) == VisibleText(entry)
  {
    var title, url := TextOr(entry.title), TextOr(entry.canonicalUrl);
    var heading := if title != "" then title else url;
    var body := if entry.body.None? then ""
                else if |entry.body.value| <= 500 then entry.body.value
                else entry.body.value[..500];
    var username := TextOr(entry.channelUsername);
    var attribution := "via " + entry.channelName + (if username == "" then "" else " (@" + username + ")")
                       + (if entry.duplicateCount > 1 then " +" + Digits(entry.duplicateCount) + " duplicates" else "");
    assert VisibleText(entry) == Paragraph(heading) + Paragraph(body) + attribution;
    FieldsShow(entry, heading, body, attribution);
    EscapeConcat(Paragraph(heading) + Paragraph(body), attribution);
    EscapeConcat(Paragraph(heading), Paragraph(body));
    ParagraphEscapes(heading);
    ParagraphEscapes(body);
    EscapeRoundTrip(VisibleText(entry));
  }

  lemma FieldsShow(entry: Entry, heading: string, body: string, attribution: string)
    requires heading == if TextOr(entry.title) != "" then TextOr(entry.title) else TextOr(entry.canonicalUrl)
    requires body == if entry.body.None? then "" else if |entry.body.value| <= 500 then entry.body.value
                     else entry.body.value[..500]
    requires attribution == "via " + entry.channelName
                            + (if TextOr(entry.channelUsername) == "" then ""
                               else " (@" + TextOr(entry.channelUsername) + ")")
                            + (if entry.duplicateCount > 1 then " +" + Digits(entry.duplicateCount) + " duplicates"
                               else "")
    ensures StripTags(FullMessage(entry)) == Paragraph(Escape(heading)) + Paragraph(Escape(body)) + Escape(attribution)
  {
    var title, url := Escape(TextOr(entry.title)), Escape(TextOr(entry.canonicalUrl));
    EscapedIsPlain(entry.title);
    EscapedIsPlain(entry.canonicalUrl);
    EscapeEmpty(TextOr(entry.title));
    TitleIsBalanced(title, url);
    TitleShows(title, url);
    EscapeIsPlain(body);
    AttributionShows(entry.channelName, TextOr(entry.channelUsername), entry.duplicateCount);
    EscapeIsPlain(attribution);
    PartsShow(TitlePart(title, url), Escape(body), Escape(attribution));
  }

  /** Where the heading links to: the message starts with a link whose target, once unescaped, is the
      canonical URL, around the bold title or the URL itself; without a URL it starts with the bold title. */
  lemma HeadingLinks(entry: Entry)
    ensures var title, url := TextOr(entry.title), TextOr(entry.canonicalUrl);
            && (url != "" ==>
                  && "<a href=\"" + Escape(url) + "\">" + (if title == "" then Escape(url)
                                                           else "<b>" + Escape(title) + "</b>") + "</a>"
                     <= FullMessage(entry)
                  && '"' !in Escape(url) && Unescape(Escape(url)) == url)
            && (url == "" && title != "" ==> "<b>" + Escape(title) + "</b>" <= FullMessage(entry))
  {
    var title, url := TextOr(entry.title), TextOr(entry.canonicalUrl);
    EscapeEmpty(title);
    EscapeEmpty(url);
    EscapeRoundTrip(url);
    EscapeHasNoQuote(url);
    JoinParts(TitlePart(Escape(title), Escape(url)), BodyPart(entry.body),
              Attribution(Escape(entry.channelName), EscapedOr(entry.channelUsername), entry.duplicateCount));
  }

  lemma {:induction false} EscapeHasNoQuote(s: string)
    ensures '"' !in Escape(s)
  {
    if s != "" {
      EscapeHasNoQuote(s[1..]);
      assert '"' !in EscapeChar(s[0]);
    }
  }

  /** A cut message shows a beginning of the text, and an ellipsis. */
  lemma CutShowsBeginning(html: string, r: string, maxLen: int)
    requires IsCut(html, r, maxLen)
    ensures exists shown: string :: shown <= StripTags(html) && StripTags(r) == shown + "\U{2026}"
  {
    var q: nat, open: seq<string> :| IsCutAt(html, r, maxLen, q, open);
    SliceSplit(html, q, |html|);
    assert html[..|html|] == html;
    BeginningShows(html[..q], html[q..|html|], open);
    assert StripTags(html[..q]) <= StripTags(html) && StripTags(r) == StripTags(html[..q]) + "\U{2026}";
  }

  lemma BeginningShows(done: string, rest: string, open: seq<string>)
    requires Nest(done, []) == Some(open)
    ensures StripTags(done) <= StripTags(done + rest)
    ensures StripTags(done + ELLIPSIS + Closers(open)) == StripTags(done) + "\U{2026}"
  {
    StripConcat(done, rest, []);
    StripConcat(done, ELLIPSIS + Closers(open), []);
    assert done + (ELLIPSIS + Closers(open)) == done + ELLIPSIS + Closers(open);
    NestNames(done, []);
    EllipsisShows(open);
  }

  lemma EllipsisShows(open: seq<string>)
    requires AreNames(open)
    ensures StripTags(ELLIPSIS + Closers(open)) == "\U{2026}"
  {
    StripPlain(ELLIPSIS);
    NestPlain(ELLIPSIS, open);
    StripConcat(ELLIPSIS, Closers(open), open);
    StripClosers(open);
  }

  /** The message sent for one entry: at most 4096 characters and well nested. It shows the whole text of
      the entry when the assembled message fits, and otherwise a beginning of it in the longest fitting cut. */
  method FormatDeliveryMessage(entry: Entry) returns (r: string)
    ensures |r| <= 4096 && WellNested(r)
    ensures if |FullMessage(entry)| <= 4096 then r == FullMessage(entry) && Unescape(StripTags(r)) == VisibleText(entry)
            else IsCut(FullMessage(entry), r, 4096) &&
                 exists shown: string :: shown <= Escape(VisibleText(entry)) && StripTags(r) == shown + "\U{2026}"
  {
    var full := FullMessage(entry);
    FullMessageIsWellNested(entry);
    FullMessageShows(entry);
    r := TruncateHtml(full, MAX_MESSAGE_LENGTH);
    if |full| > MAX_MESSAGE_LENGTH {
      CutShowsBeginning(full, r, MAX_MESSAGE_LENGTH);
    }
  }
}
