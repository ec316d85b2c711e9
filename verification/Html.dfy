/** Tags and nesting of Telegram HTML, over plain strings. A tag is what the regular expression
    `</?[a-zA-Z0-9]+(?:\s+[^>]*)*>` matches at a position; everything else is text. */
module Html {
  import opened Basics

  predicate IsAlnum(c: char) {
    'a' <= c <= 'z' || 'A' <= c <= 'Z' || '0' <= c <= '9'
  }

  /** Python's `\s` for text. */
  predicate IsSpace(c: char) {
    || '\U{9}' <= c <= '\U{D}' || '\U{1C}' <= c <= '\U{20}' || c == '\U{85}' || c == '\U{A0}' || c == '\U{1680}'
    || '\U{2000}' <= c <= '\U{200A}' || c == '\U{2028}' || c == '\U{2029}' || c == '\U{202F}' || c == '\U{205F}' ||
        c == '\U{3000}'
  }

  /** The index after the run of name characters that starts at `i`. */
  function NameEnd(s: string, i: nat): (e: nat)
    requires i <= |s|
    ensures i <= e <= |s|
    ensures forall k | i <= k < e :: IsAlnum(s[k])
    ensures e < |s| ==> !IsAlnum(s[e])
    decreases |s| - i
  {
    if i < |s| && IsAlnum(s[i]) then NameEnd(s, i + 1) else i
  }

  /** The index of the first '>' at or after `i`, or the length. */
  function FindGt(s: string, i: nat): (g: nat)
    requires i <= |s|
    ensures i <= g <= |s|
    ensures forall k | i <= k < g :: s[k] != '>'
    ensures g < |s| ==> s[g] == '>'
    decreases |s| - i
  {
    if i < |s| && s[i] != '>' then FindGt(s, i + 1) else i
  }

  /** Where the tag name of `s` starts: after "<" or "</". */
  function NameStart(s: string): nat {
    if |s| > 1 && s[1] == '/' then 2 else 1
  }

  /** The length of the tag at the start of `s`, or 0 when there is none. */
  function TagLength(s: string): (n: nat)
    ensures n <= |s|
  {
    if s == "" || s[0] != '<' then 0
    else
      var e := NameEnd(s, NameStart(s));
      if e == NameStart(s) || e == |s| then 0
      else if s[e] == '>' then e + 1
      else if IsSpace(s[e]) && FindGt(s, e) < |s| then FindGt(s, e) + 1
      else 0
  }

  function LowerChar(c: char): char {
    if 'A' <= c <= 'Z' then c - 'A' + 'a' else c
  }

  function Lower(s: string): string {
    seq(|s|, k requires 0 <= k < |s| => LowerChar(s[k]))
  }

  /** The lower-cased name after "<" or "</"; empty when there is none. */
  function TagName(token: string): string
    requires token != "" && token[0] == '<'
  {
    Lower(token[NameStart(token)..NameEnd(token, NameStart(token))])
  }

  predicate IsClosing(token: string) {
    |token| >= 2 && token[..2] == "</"
  }

  predicate IsSelfClosing(token: string) {
    |token| >= 2 && token[|token| - 2..] == "/>"
  }

  /** The open tags after one more tag, or None when it closes something else than the innermost. */
  function AfterTag(open: seq<string>, tag: string): Option<seq<string>>
    requires tag != "" && tag[0] == '<'
  {
    if IsClosing(tag) then
      if open != [] && open[|open| - 1] == TagName(tag) then Some(open[..|open| - 1]) else None
    else if IsSelfClosing(tag) then Some(open)
    else Some(open + [TagName(tag)])
  }

  /** The open tags after reading `s` with `open` open; None when a tag is misplaced or the text
      has a raw angle bracket. */
  function Nest(s: string, open: seq<string>): Option<seq<string>>
    decreases |s|
  {
    if s == "" then Some(open)
    else
      var n := TagLength(s);
      if n > 0 then
        var next := AfterTag(open, s[..n]);
        if next.Some? then Nest(s[n..], next.value) else None
      else if s[0] == '<' || s[0] == '>' then None
      else Nest(s[1..], open)
  }

  predicate WellNested(s: string) {
    Nest(s, []) == Some([])
  }

  /** Text without raw angle brackets. */
  predicate IsPlain(s: string) {
    forall k | 0 <= k < |s| :: s[k] != '<' && s[k] != '>'
  }

  /** A tag name as the stack of open tags holds it. */
  predicate IsName(t: string) {
    t != "" && Lower(t) == t && forall k | 0 <= k < |t| :: IsAlnum(t[k])
  }

  predicate AreNames(open: seq<string>) {
    forall k | 0 <= k < |open| :: IsName(open[k])
  }

  function Closer(tag: string): string {
    "</" + tag + ">"
  }

  /** The end tags of the open tags, innermost first. */
  function Closers(open: seq<string>): string {
    if open == [] then "" else Closer(open[|open| - 1]) + Closers(open[..|open| - 1])
  }

  function ClosersLength(open: seq<string>): nat {
    if open == [] then 0 else ClosersLength(open[..|open| - 1]) + |open[|open| - 1]| + 3
  }

  // ----- tags do not depend on what follows them -----

  lemma {:induction false} NameEndExtends(s: string, t: string, i: nat)
    requires i <= |s| && NameEnd(s, i) < |s|
    ensures NameEnd(s + t, i) == NameEnd(s, i)
    decreases |s| - i
  {
    if i < |s| && IsAlnum(s[i]) {
      NameEndExtends(s, t, i + 1);
    }
  }

  lemma {:induction false} FindGtExtends(s: string, t: string, i: nat)
    requires i <= |s| && FindGt(s, i) < |s|
    ensures FindGt(s + t, i) == FindGt(s, i)
    decreases |s| - i
  {
    if i < |s| && s[i] != '>' {
      FindGtExtends(s, t, i + 1);
    }
  }

  lemma TagExtends(s: string, t: string)
    requires TagLength(s) > 0
    ensures TagLength(s + t) == TagLength(s)
  {
    var e := NameEnd(s, NameStart(s));
    assert NameStart(s + t) == NameStart(s);
    NameEndExtends(s, t, NameStart(s));
    if s[e] != '>' {
      FindGtExtends(s, t, e);
    }
  }

  lemma {:induction false} NameEndCut(s: string, n: nat, i: nat)
    requires i <= n <= |s| && NameEnd(s, i) < n
    ensures NameEnd(s[..n], i) == NameEnd(s, i)
    decreases n - i
  {
    if IsAlnum(s[i]) {
      NameEndCut(s, n, i + 1);
    }
  }

  lemma LowerIsLower(c: char)
    ensures IsAlnum(c) ==> IsAlnum(LowerChar(c))
    ensures LowerChar(LowerChar(c)) == LowerChar(c)
  {
  }

  lemma LowerIsName(name: string)
    requires name != "" && forall k | 0 <= k < |name| :: IsAlnum(name[k])
    ensures IsName(Lower(name)) && |Lower(name)| == |name|
  {
    var low := Lower(name);
    forall k | 0 <= k < |low| ensures IsAlnum(low[k]) && LowerChar(low[k]) == low[k] {
      LowerIsLower(name[k]);
    }
    assert Lower(low) == low;
  }

  lemma SliceOfPrefix(s: string, n: nat, i: nat, j: nat)
    requires i <= j <= n <= |s|
    ensures s[..n][i..j] == s[i..j] && |s[..n]| == n
  {
  }

  /** The first and the last character of a matched tag, and where its name ends. */
  lemma TagEnds(s: string)
    requires TagLength(s) > 0
    ensures var n, e := TagLength(s), NameEnd(s, NameStart(s));
            NameStart(s) < e < n && s[0] == '<' && s[n - 1] == '>' && NameStart(s[..n]) == NameStart(s)
  {
  }

  /** A matched tag starts with '<', ends with '>' and carries the name it was matched with. */
  lemma TagShape(s: string)
    requires TagLength(s) > 0
    ensures var tag := s[..TagLength(s)];
            && |tag| >= 3 && tag[0] == '<' && tag[|tag| - 1] == '>'
            && NameStart(tag) == NameStart(s) && NameEnd(tag, NameStart(tag)) == NameEnd(s, NameStart(s)) < |tag|
            && IsName(TagName(tag)) && |TagName(tag)| + 2 <= |tag|
  {
    var n, i := TagLength(s), NameStart(s);
    var e := NameEnd(s, i);
    TagEnds(s);
    NameEndCut(s, n, i);
    SliceOfPrefix(s, n, i, e);
    LowerIsName(s[i..e]);
  }

  lemma AfterTagNames(open: seq<string>, s: string)
    requires AreNames(open) && TagLength(s) > 0 && AfterTag(open, s[..TagLength(s)]).Some?
    ensures AreNames(AfterTag(open, s[..TagLength(s)]).value)
  {
    TagShape(s);
  }

  // ----- nesting composes -----

  lemma SliceConcat(s: string, t: string, n: nat)
    requires n <= |s|
    ensures (s + t)[..n] == s[..n] && (s + t)[n..] == s[n..] + t
  {
  }

  lemma {:induction false} NestConcat(s: string, t: string, open: seq<string>)
    requires Nest(s, open).Some?
    ensures Nest(s + t, open) == Nest(t, Nest(s, open).value)
    decreases |s|
  {
    if s == "" {
      assert s + t == t;
    } else {
      var n := TagLength(s);
      if n > 0 {
        TagExtends(s, t);
        SliceConcat(s, t, n);
        NestConcat(s[n..], t, AfterTag(open, s[..n]).value);
      } else {
        SliceConcat(s, t, 1);
        NestConcat(s[1..], t, open);
      }
    }
  }

  lemma {:induction false} NestPlain(s: string, open: seq<string>)
    requires IsPlain(s)
    ensures Nest(s, open) == Some(open)
    decreases |s|
  {
    if s != "" {
      NestPlain(s[1..], open);
    }
  }

  lemma {:induction false} NestNames(s: string, open: seq<string>)
    requires AreNames(open) && Nest(s, open).Some?
    ensures AreNames(Nest(s, open).value)
    decreases |s|
  {
    if s != "" {
      var n := TagLength(s);
      if n > 0 {
        AfterTagNames(open, s);
        NestNames(s[n..], AfterTag(open, s[..n]).value);
      } else {
        NestNames(s[1..], open);
      }
    }
  }

  lemma {:induction false} NameEndAt(s: string, i: nat, e: nat)
    requires i <= e < |s| && (forall k | i <= k < e :: IsAlnum(s[k])) && !IsAlnum(s[e])
    ensures NameEnd(s, i) == e
    decreases e - i
  {
    if i < e {
      NameEndAt(s, i + 1, e);
    }
  }

  lemma {:induction false} FindGtAt(s: string, i: nat, g: nat)
    requires i <= g < |s| && s[g] == '>' && forall k | i <= k < g :: s[k] != '>'
    ensures FindGt(s, i) == g
    decreases g - i
  {
    if i < g {
      FindGtAt(s, i + 1, g);
    }
  }

  /** The tag grammar, character by character: "<" or "</", a name of ASCII letters and digits, and either
      ">" at once, or white space and anything up to the first ">". */
  ghost predicate IsTagText(t: string) {
    && |t| >= 3 && t[0] == '<' && t[|t| - 1] == '>'
    && if t[1] == '/' then exists e: nat :: NameEndsAt(t, 2, e) else exists e: nat :: NameEndsAt(t, 1, e)
  }

  /** From `i` the name runs to `e`, where the tag ends or white space follows. */
  ghost predicate NameEndsAt(t: string, i: nat, e: nat) {
    && i < e < |t|
    && (forall k | i <= k < e :: 'a' <= t[k] <= 'z' || 'A' <= t[k] <= 'Z' || '0' <= t[k] <= '9')
    && (e == |t| - 1 || (IsSpace(t[e]) && forall k | e <= k < |t| - 1 :: t[k] != '>'))
  }

  lemma SpacesAre(c: char)
    ensures IsSpace(c) <==>
            c in {'\t', '\n', '\U{B}', '\U{C}', '\r', '\U{1C}', '\U{1D}', '\U{1E}', '\U{1F}', ' ', '\U{85}', '\U{A0}',
                  '\U{1680}', '\U{2000}', '\U{2001}', '\U{2002}', '\U{2003}', '\U{2004}', '\U{2005}', '\U{2006}',
                  '\U{2007}', '\U{2008}', '\U{2009}', '\U{200A}', '\U{2028}', '\U{2029}', '\U{202F}', '\U{205F}',
                  '\U{3000}'}
  {
  }

  /** A tag is matched exactly where the grammar allows one. */
  lemma TagsExactly(s: string, n: nat)
    requires 0 < n <= |s|
    ensures TagLength(s) == n <==> IsTagText(s[..n])
  {
    if TagLength(s) == n {
      TagFollowsGrammar(s);
    }
    if IsTagText(s[..n]) {
      GrammarIsTag(s, n);
    }
  }

  lemma TagFollowsGrammar(s: string)
    requires TagLength(s) > 0
    ensures IsTagText(s[..TagLength(s)])
  {
    var t, i := s[..TagLength(s)], NameStart(s);
    var e := NameEnd(s, i);
    TagEnds(s);
    assert forall k | i <= k < e :: t[k] == s[k] && IsAlnum(s[k]);
    assert t[e] == s[e] && t[1] == s[1];
    if s[e] != '>' {
      assert forall k | e <= k < |t| - 1 :: t[k] == s[k] && s[k] != '>';
    }
    assert NameEndsAt(t, i, e);
  }

  lemma GrammarIsTag(s: string, n: nat)
    requires 0 < n <= |s| && IsTagText(s[..n])
    ensures TagLength(s) == n
  {
    var t, i := s[..n], NameStart(s);
    assert t[1] == s[1] && t[0] == s[0] && t[n - 1] == s[n - 1];
    var e: nat :| NameEndsAt(t, i, e);
    NamedIsTag(s, n, e);
  }

  lemma NamedIsTag(s: string, n: nat, e: nat)
    requires 3 <= n <= |s| && s[0] == '<' && s[n - 1] == '>' && NameEndsAt(s[..n], NameStart(s), e)
    ensures TagLength(s) == n
  {
    var i := NameStart(s);
    NameInPrefix(s, n, i, e);
    NameEndAt(s, i, e);
    if e < n - 1 {
      FindGtAt(s, e, n - 1);
    }
  }

  lemma NameInPrefix(s: string, n: nat, i: nat, e: nat)
    requires n <= |s| && NameEndsAt(s[..n], i, e) && s[..n][n - 1] == '>'
    ensures i < e < n && (forall k | i <= k < e :: IsAlnum(s[k])) && !IsAlnum(s[e])
    ensures e == n - 1 || (IsSpace(s[e]) && s[e] != '>' && forall k | e <= k < n - 1 :: s[k] != '>')
  {
    var t := s[..n];
    forall k | i <= k < e ensures IsAlnum(s[k]) { assert t[k] == s[k]; }
    assert t[e] == s[e];
    if e < n - 1 {
      forall k | e <= k < n - 1 ensures s[k] != '>' { assert t[k] == s[k]; }
    }
  }

  /** A closer is one whole tag, and it closes its own name. */
  lemma CloserNests(tag: string, open: seq<string>)
    requires IsName(tag)
    ensures Nest(Closer(tag), open + [tag]) == Some(open)
  {
    var c := Closer(tag);
    assert forall k | 2 <= k < 2 + |tag| :: c[k] == tag[k - 2];
    NameEndAt(c, 2, 2 + |tag|);
    assert TagLength(c) == |c| && c[..|c|] == c && c[|c|..] == "";
    assert c[2..2 + |tag|] == tag;
    assert (open + [tag])[..|open|] == open;
  }

  lemma {:induction false} ClosersNest(open: seq<string>)
    requires AreNames(open)
    ensures Nest(Closers(open), open) == Some([])
    ensures |Closers(open)| == ClosersLength(open)
    decreases |open|
  {
    if open != [] {
      var tag, rest := open[|open| - 1], open[..|open| - 1];
      assert open == rest + [tag];
      CloserNests(tag, rest);
      NestConcat(Closer(tag), Closers(rest), open);
      ClosersNest(rest);
    }
  }

  // ----- the text between the tags -----

  /** What is left of `s` without its tags. */
  function StripTags(s: string): string
    decreases |s|
  {
    if s == "" then ""
    else if TagLength(s) > 0 then StripTags(s[TagLength(s)..])
    else [s[0]] + StripTags(s[1..])
  }

  lemma {:induction false} StripPlain(s: string)
    requires IsPlain(s)
    ensures StripTags(s) == s
    decreases |s|
  {
    if s != "" {
      StripPlain(s[1..]);
    }
  }

  /** Stripping a concatenation is stripping its parts, when the first ends between tags. */
  lemma {:induction false} StripConcat(s: string, t: string, open: seq<string>)
    requires Nest(s, open).Some?
    ensures StripTags(s + t) == StripTags(s) + StripTags(t)
    decreases |s|
  {
    if s == "" {
      assert s + t == t;
    } else {
      var n := TagLength(s);
      if n > 0 {
        TagExtends(s, t);
        SliceConcat(s, t, n);
        StripConcat(s[n..], t, AfterTag(open, s[..n]).value);
      } else {
        SliceConcat(s, t, 1);
        StripConcat(s[1..], t, open);
        assert (s + t)[0] == s[0];
      }
    }
  }

  /** A string that is one whole tag has no text. */
  lemma StripTag(tag: string)
    requires tag != "" && TagLength(tag) == |tag|
    ensures StripTags(tag) == ""
  {
    assert tag[|tag|..] == "";
  }

  lemma CloserIsTag(name: string)
    requires IsName(name)
    ensures Closer(name) != "" && TagLength(Closer(name)) == |Closer(name)|
  {
    var c := Closer(name);
    assert forall k | 2 <= k < 2 + |name| :: c[k] == name[k - 2];
    NameEndAt(c, 2, 2 + |name|);
  }

  /** End tags have no text. */
  lemma {:induction false} StripClosers(open: seq<string>)
    requires AreNames(open)
    ensures StripTags(Closers(open)) == ""
    decreases |open|
  {
    if open != [] {
      var tag, rest := open[|open| - 1], open[..|open| - 1];
      assert open == rest + [tag];
      CloserIsTag(tag);
      StripTag(Closer(tag));
      CloserNests(tag, rest);
      StripConcat(Closer(tag), Closers(rest), open);
      StripClosers(rest);
    }
  }
}
