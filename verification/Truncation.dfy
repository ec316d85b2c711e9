/** `truncate_html`: cut a message to a length budget while closing the tags left open. */
module Truncation {
  import opened Basics
  import opened Html

  const ELLIPSIS: string := "\U{2026}"

  /** How many characters of `s` come before its first tag. */
  function TextLength(s: string): (n: nat)
    ensures n <= |s| && (n < |s| ==> TagLength(s[n..]) > 0)
    ensures forall k | 0 <= k < n :: TagLength(s[k..]) == 0
  {
    if s == "" || TagLength(s) > 0 then
      assert s[0..] == s;
      0
    else
      var n := TextLength(s[1..]);
      assert s[n + 1..] == s[1..][n..] && s[0..] == s;
      assert forall k | 0 < k < n + 1 :: s[k..] == s[1..][k - 1..];
      n + 1
  }

  /** `re.split` with a capturing group: text, tag, text, ..., tag, text. */
  function Split(s: string): seq<string>
    decreases |s|, 1
  {
    var n := TextLength(s);
    if n == |s| then [s] else [s[..n]] + TagThenText(s[n..])
  }

  function TagThenText(s: string): seq<string>
    requires TagLength(s) > 0
    decreases |s|, 0
  {
    [s[..TagLength(s)]] + Split(s[TagLength(s)..])
  }

  /** The tokens still to come when `rest` is unread and the next token is text or a tag. */
  ghost function Remaining(rest: string, tagNext: bool): seq<string>
    requires tagNext ==> rest == "" || TagLength(rest) > 0
  {
    if !tagNext then Split(rest) else if rest == "" then [] else TagThenText(rest)
  }

  /** `done` is the part of `html` already copied, `open` the tags it leaves open. */
  ghost predicate Copied(html: string, done: string, rest: string, open: seq<string>) {
    done + rest == html && Nest(done, []) == Some(open) && Nest(rest, open) == Some([])
  }

  /** Neither the tag nor the character that follows `rest`'s start fits after `kept` characters. */
  ghost predicate NoMoreFits(kept: nat, rest: string, open: seq<string>, maxLen: int) {
    if TagLength(rest) > 0 then
      var tag := rest[..TagLength(rest)];
      tag[0] == '<' && AfterTag(open, tag).Some? && kept + |tag| + ClosersLength(AfterTag(open, tag).value) + 1 > maxLen
    else rest != "" && kept + ClosersLength(open) + 1 >= maxLen
  }

  /** The first `q` characters of `html` end inside a tag, are not nested, or do not fit with the
      ellipsis and their end tags. */
  ghost predicate CannotCutAt(html: string, q: nat, maxLen: int)
    requires q <= |html|
  {
    var open := Nest(html[..q], []);
    open.Some? ==> q + 1 + ClosersLength(open.value) > maxLen
  }

  /** `r` is the longest part of `html` that ends between tags and fits, an ellipsis and the missing end tags. */
  ghost predicate IsCut(html: string, r: string, maxLen: int) {
    exists q: nat, open: seq<string> :: IsCutAt(html, r, maxLen, q, open)
  }

  ghost predicate IsCutAt(html: string, r: string, maxLen: int, q: nat, open: seq<string>) {
    && q <= |html| && Nest(html[..q], []) == Some(open) && r == html[..q] + ELLIPSIS + Closers(open)
    && forall longer: nat | q < longer <= |html| :: CannotCutAt(html, longer, maxLen)
  }

  // ----- a longer part never needs less room -----

  /** A tag makes at least as much room unnecessary as it takes. */
  lemma TagWeighs(open: seq<string>, s: string)
    requires TagLength(s) > 0 && s[0] == '<' && AfterTag(open, s[..TagLength(s)]).Some?
    ensures TagLength(s) + ClosersLength(AfterTag(open, s[..TagLength(s)]).value) >= ClosersLength(open)
  {
    TagShape(s);
    var tag := s[..TagLength(s)];
    if !IsClosing(tag) && !IsSelfClosing(tag) {
      assert (open + [TagName(tag)])[..|open|] == open;
    }
  }

  /** Reading nested text never lowers the position plus the length of the end tags needed. */
  lemma {:induction false} LongerNeedsMore(s: string, open: seq<string>)
    requires Nest(s, open).Some?
    ensures |s| + ClosersLength(Nest(s, open).value) >= ClosersLength(open)
    decreases |s|
  {
    if s != "" {
      var n := TagLength(s);
      if n > 0 {
        TagWeighs(open, s);
        LongerNeedsMore(s[n..], AfterTag(open, s[..n]).value);
      } else {
        LongerNeedsMore(s[1..], open);
      }
    }
  }

  /** What follows is `a` and then `b`: if nothing fits at its start, `a` does not fit either. */
  lemma NoLongerFits(kept: nat, a: string, b: string, open: seq<string>, maxLen: int)
    requires a != "" && NoMoreFits(kept, a + b, open, maxLen) && Nest(a, open).Some?
    ensures kept + |a| + 1 + ClosersLength(Nest(a, open).value) > maxLen
  {
    var n := TagLength(a);
    if n > 0 {
      TagExtends(a, b);
      SliceConcat(a, b, n);
      LongerNeedsMore(a[n..], AfterTag(open, a[..n]).value);
    } else {
      assert (a + b)[0] == a[0] && TagLength(a + b) == 0;
      LongerNeedsMore(a[1..], open);
    }
  }

  lemma CannotCutAfter(done: string, more: string, rest: string, open: seq<string>, maxLen: int)
    requires more != "" && Nest(done, []) == Some(open) && NoMoreFits(|done|, more + rest, open, maxLen)
    ensures Nest(done + more, []).Some? ==> |done + more| + 1 + ClosersLength(Nest(done + more, []).value) > maxLen
  {
    NestConcat(done, more, []);
    if Nest(more, open).Some? {
      NoLongerFits(|done|, more, rest, open, maxLen);
    }
  }

  lemma CannotCutLater(html: string, q: nat, open: seq<string>, maxLen: int, longer: nat)
    requires q < longer <= |html| && Nest(html[..q], []) == Some(open) && NoMoreFits(q, html[q..], open, maxLen)
    ensures CannotCutAt(html, longer, maxLen)
  {
    SliceSplit(html, q, longer);
    CannotCutAfter(html[..q], html[q..longer], html[longer..], open, maxLen);
  }

  lemma SliceSplit(s: string, i: nat, j: nat)
    requires i <= j <= |s|
    ensures s[..j] == s[..i] + s[i..j] && s[i..] == s[i..j] + s[j..]
  {
  }

  /** The first character before the first tag is plain, and nesting ignores it. */
  lemma TextStep(s: string, open: seq<string>)
    requires Nest(s, open).Some? && TextLength(s) > 0
    ensures s[0] != '<' && s[0] != '>' && Nest(s[1..], open) == Nest(s, open) && TextLength(s[1..]) + 1 == TextLength(s)
  {
    assert s[0..] == s;
  }

  lemma PlainCons(s: string, n: nat)
    requires 0 < n <= |s| && s[0] != '<' && s[0] != '>' && IsPlain(s[1..][..n - 1])
    ensures IsPlain(s[..n]) && s[n..] == s[1..][n - 1..]
  {
    forall k | 0 < k < n ensures s[k] != '<' && s[k] != '>' {
      assert s[k] == s[1..][..n - 1][k - 1];
    }
  }

  lemma {:induction false} NestText(s: string, open: seq<string>, n: nat)
    requires Nest(s, open).Some? && n <= TextLength(s)
    ensures IsPlain(s[..n]) && Nest(s[n..], open) == Nest(s, open)
    decreases n
  {
    if n == 0 {
      assert s[0..] == s;
    } else {
      TextStep(s, open);
      var rest := s[1..];
      NestText(rest, open, n - 1);
      NestTextStep(s, rest, open, n);
    }
  }

  lemma NestTextStep(s: string, rest: string, open: seq<string>, n: nat)
    requires 0 < n <= |s| && rest == s[1..] && s[0] != '<' && s[0] != '>' && Nest(rest, open) == Nest(s, open)
    requires IsPlain(rest[..n - 1]) && Nest(rest[n - 1..], open) == Nest(rest, open)
    ensures IsPlain(s[..n]) && Nest(s[n..], open) == Nest(s, open)
  {
    PlainCons(s, n);
  }

  /** Copying the piece `a` of what is left. */
  lemma CopyPiece(html: string, done: string, a: string, b: string, open: seq<string>, open': seq<string>)
    requires Copied(html, done, a + b, open) && Nest(a, open) == Some(open') && Nest(b, open') == Some([])
    ensures Copied(html, done + a, b, open')
  {
    NestConcat(done, a, []);
    Associates(done, a, b);
  }

  lemma Associates(a: string, b: string, c: string)
    ensures (a + b) + c == a + (b + c)
  {
  }

  /** Copying some of the next text keeps the nesting. */
  lemma CopyText(html: string, done: string, rest: string, open: seq<string>, n: nat)
    requires Copied(html, done, rest, open) && n <= TextLength(rest)
    ensures IsPlain(rest[..n]) && Copied(html, done + rest[..n], rest[n..], open)
  {
    NestText(rest, open, n);
    NestPlain(rest[..n], open);
    assert rest == rest[..n] + rest[n..];
    CopyPiece(html, done, rest[..n], rest[n..], open, open);
  }

  lemma NestTag(s: string, open: seq<string>)
    requires TagLength(s) > 0 && Nest(s, open).Some?
    ensures var n := TagLength(s);
            && s[0] == '<' && AfterTag(open, s[..n]).Some? && Nest(s[..n], open) == AfterTag(open, s[..n])
            && Nest(s[n..], AfterTag(open, s[..n]).value) == Nest(s, open)
  {
    var tag := s[..TagLength(s)];
    TagOfItself(s);
    assert tag[..|tag|] == tag && tag[|tag|..] == "";
  }

  /** Copying the next tag changes the open tags by that tag. */
  lemma CopyTag(html: string, done: string, rest: string, open: seq<string>)
    requires Copied(html, done, rest, open) && TagLength(rest) > 0
    ensures var n := TagLength(rest);
            && rest[0] == '<' && AfterTag(open, rest[..n]).Some?
            && Copied(html, done + rest[..n], rest[n..], AfterTag(open, rest[..n]).value)
  {
    var n := TagLength(rest);
    NestTag(rest, open);
    assert rest == rest[..n] + rest[n..];
    CopyPiece(html, done, rest[..n], rest[n..], open, AfterTag(open, rest[..n]).value);
  }

  /** A matched tag matches on its own. */
  lemma TagOfItself(s: string)
    requires TagLength(s) > 0
    ensures TagLength(s[..TagLength(s)]) == TagLength(s)
  {
    var n := TagLength(s);
    var e := NameEnd(s, NameStart(s));
    TagShape(s);
    if s[e] != '>' {
      FindGtCut(s, n, e);
    }
  }

  lemma {:induction false} FindGtCut(s: string, n: nat, i: nat)
    requires i <= n <= |s| && FindGt(s, i) < n
    ensures FindGt(s[..n], i) == FindGt(s, i)
    decreases n - i
  {
    if s[i] != '>' {
      FindGtCut(s, n, i + 1);
    }
  }

  /** A part that leaves `open` open, an ellipsis and the closers of `open` are well nested. */
  lemma CutNests(done: string, open: seq<string>)
    requires Nest(done, []) == Some(open)
    ensures WellNested(done + ELLIPSIS + Closers(open))
  {
    NestNames(done, []);
    ClosersNest(open);
    NestPlain(ELLIPSIS, open);
    NestConcat(done, ELLIPSIS, []);
    NestConcat(done + ELLIPSIS, Closers(open), []);
  }

  lemma {:induction false} ClosersCount(open: seq<string>)
    ensures |Closers(open)| == ClosersLength(open)
  {
    if open != [] {
      ClosersCount(open[..|open| - 1]);
    }
  }

  /** With a positive limit there is room for the ellipsis and the end tags; otherwise nothing is copied. */
  ghost predicate Fits(parts: string, open: seq<string>, maxLen: int) {
    if maxLen >= 1 then |parts| + ClosersLength(open) + 1 <= maxLen else parts == "" && open == []
  }

  predicate HasTagShape(token: string) {
    token != "" && token[0] == '<' && token[|token| - 1] == '>'
  }

  /** What happens to one token: a tag is copied whole, dropped when it has no name, or ends the copy
      when it does not fit; text is copied whole, or cut to the room left, which ends the copy. */
  ghost predicate Offered(token: string, parts: string, open: seq<string>, maxLen: int,
                          stop: bool, parts': string, open': seq<string>, taken: nat) {
    && taken <= |token| && (!stop ==> taken == |token|)
    && if HasTagShape(token) then
         && (stop ==> taken == 0)
         && (stop || TagName(token) == "" ==> parts' == parts && open' == open)
         && (!stop && TagName(token) != "" ==> parts' == parts + token)
         && (AfterTag(open, token).Some? && TagName(token) != "" ==>
               if stop then |parts| + |token| + ClosersLength(AfterTag(open, token).value) + 1 > maxLen
               else open' == AfterTag(open, token).value)
       else
         && parts' == parts + token[..taken] && open' == open
         && (stop ==> taken < |token| && |parts'| + ClosersLength(open) + 1 >= maxLen)
  }

  /** One turn of the token loop. */
  method Offer(token: string, parts: string, open: seq<string>, maxLen: int)
    returns (stop: bool, parts': string, open': seq<string>, taken: nat)
    requires Fits(parts, open, maxLen)
    ensures Fits(parts', open', maxLen)
    ensures Offered(token, parts, open, maxLen, stop, parts', open', taken)
  {
    stop, parts', open', taken := false, parts, open, |token|;
    if token == "" {
    } else if token[0] == '<' && token[|token| - 1] == '>' {
      var name := TagName(token);
      if name != "" {
        var newOpen := open;
        if IsClosing(token) {
          if newOpen != [] && newOpen[|newOpen| - 1] == name {
            newOpen := newOpen[..|newOpen| - 1];
          }
        } else if !IsSelfClosing(token) {
          newOpen := newOpen + [name];
        }
        if |parts| + |token| + ClosersLength(newOpen) + 1 > maxLen {
          stop, taken := true, 0;
        } else {
          parts', open' := parts + token, newOpen;
        }
      }
    } else {
      var available := maxLen - 1 - ClosersLength(open) - |parts|;
      if available <= 0 {
        stop, taken := true, 0;
      } else if |token| > available {
        stop, parts', taken := true, parts + token[..available], available;
      } else {
        parts' := parts + token;
      }
    }
  }

  /** The unread tokens are those of the unread text. */
  ghost predicate Unread(tokens: seq<string>, k: nat, rest: string, tagNext: bool) {
    && k <= |tokens| && (tagNext ==> rest == "" || TagLength(rest) > 0)
    && tokens[k..] == Remaining(rest, tagNext)
  }

  /** The length of the next token. */
  ghost function TokenLength(rest: string, tagNext: bool): (n: nat)
    ensures n <= |rest|
  {
    if tagNext then TagLength(rest) else TextLength(rest)
  }

  /** The next token is a piece of what is unread, and the kinds alternate. */
  lemma NextToken(tokens: seq<string>, k: nat, rest: string, tagNext: bool)
    requires Unread(tokens, k, rest, tagNext) && k < |tokens|
    ensures tagNext ==> TagLength(rest) > 0
    ensures tokens[k] == rest[..TokenLength(rest, tagNext)]
    ensures Unread(tokens, k + 1, rest[TokenLength(rest, tagNext)..], !tagNext)
  {
    var n := TextLength(rest);
    if !tagNext && n == |rest| {
      assert rest[..n] == rest && rest[n..] == "";
    }
    assert tokens[k] == tokens[k..][0] && tokens[k + 1..] == tokens[k..][1..];
  }

  /** In well-nested input a token with tag shape is the next tag. */
  lemma TagLike(html: string, parts: string, rest: string, open: seq<string>, tagNext: bool, token: string)
    requires Copied(html, parts, rest, open) && (tagNext ==> TagLength(rest) > 0)
    requires token == rest[..TokenLength(rest, tagNext)] && token != "" && token[0] == '<'
    ensures TagName(token) != "" && AfterTag(open, token).Some?
    ensures Copied(html, parts + token, rest[TokenLength(rest, tagNext)..], AfterTag(open, token).value)
    ensures tagNext && token == rest[..TagLength(rest)]
  {
    if !tagNext {
      CopyText(html, parts, rest, open, TextLength(rest));
      assert false;
    }
    TagShape(rest);
    CopyTag(html, parts, rest, open);
  }

  /** In well-nested input any other token is text, and so is every prefix of it. */
  lemma TextLike(html: string, parts: string, rest: string, open: seq<string>, tagNext: bool, token: string, n: nat)
    requires Copied(html, parts, rest, open) && (tagNext ==> TagLength(rest) > 0)
    requires token == rest[..TokenLength(rest, tagNext)] && n <= |token|
    requires token != "" && !(token[0] == '<' && token[|token| - 1] == '>')
    ensures Copied(html, parts + token[..n], rest[n..], open)
    ensures n == |token| ==> token[..n] == token && n == TokenLength(rest, tagNext)
    ensures n < |token| ==> TagLength(rest[n..]) == 0 && rest[n..] != ""
  {
    if tagNext {
      TagShape(rest);
      assert false;
    }
    assert token[..n] == rest[..n];
    CopyText(html, parts, rest, open, n);
  }

  /** One turn of the loop on well-nested input: copied pieces stay nested, and a stop is justified. */
  lemma TurnCopies(html: string, parts: string, rest: string, open: seq<string>, tagNext: bool, token: string,
                   maxLen: int, stop: bool, parts': string, open': seq<string>, taken: nat)
    requires Copied(html, parts, rest, open) && (tagNext ==> TagLength(rest) > 0)
    requires token == rest[..TokenLength(rest, tagNext)]
    requires Offered(token, parts, open, maxLen, stop, parts', open', taken)
    ensures Copied(html, parts', rest[taken..], open')
    ensures stop ==> NoMoreFits(|parts'|, rest[taken..], open', maxLen)
  {
    if HasTagShape(token) {
      TagLike(html, parts, rest, open, tagNext, token);
      assert rest[0..] == rest;
    } else if token == "" {
      assert parts + token[..taken] == parts && rest[0..] == rest;
    } else {
      TextLike(html, parts, rest, open, tagNext, token, taken);
    }
  }

  lemma NothingRead(html: string, nested: bool)
    requires nested ==> Nest(html, []) == Some([])
    ensures Unread(Split(html), 0, html, false) && (nested ==> Copied(html, "", html, []))
  {
    assert Split(html)[0..] == Split(html) && "" + html == html;
  }

  /** What `TruncateHtml` promises once it starts cutting. */
  lemma CutPromises(html: string, maxLen: int, parts: string, rest: string, open: seq<string>, nested: bool)
    requires |html| > maxLen && Fits(parts, open, maxLen)
    requires nested ==> Copied(html, parts, rest, open) && (html == "" || NoMoreFits(|parts|, rest, open, maxLen))
    ensures var r := parts + ELLIPSIS + Closers(open);
            && (if maxLen >= 1 then |r| <= maxLen else r == ELLIPSIS)
            && (nested ==> WellNested(r) && (html == "" || IsCut(html, r, maxLen)))
  {
    ClosersCount(open);
    if nested {
      CutNests(parts, open);
      assert html[..|parts|] == parts && html[|parts|..] == rest;
      if html != "" {
        forall longer: nat | |parts| < longer <= |html| ensures CannotCutAt(html, longer, maxLen) {
          CannotCutLater(html, |parts|, open, maxLen, longer);
        }
        assert IsCutAt(html, parts + ELLIPSIS + Closers(open), maxLen, |parts|, open);
      }
    }
  }

  /** Without a break everything was copied, and then it would have fitted. */
  lemma AllRead(html: string, maxLen: int, parts: string, rest: string, open: seq<string>, tokens: seq<string>,
                k: nat, tagNext: bool)
    requires |html| > maxLen && Fits(parts, open, maxLen) && Copied(html, parts, rest, open)
    requires Unread(tokens, k, rest, tagNext) && k == |tokens|
    ensures html == ""
  {
    assert rest == "";
    assert parts + rest == parts;
  }

  /** Cut `html` to `maxLen` characters. The result fits the limit except that it never shrinks below
      the ellipsis; well-nested input is cut between tags and stays well nested. */
  method TruncateHtml(html: string, maxLen: int) returns (r: string)
    ensures |html| <= maxLen ==> r == html
    ensures |r| <= maxLen <==> maxLen >= 1 || |html| <= maxLen
    ensures maxLen < 1 && |html| > maxLen ==> r == ELLIPSIS
    ensures WellNested(html) ==> WellNested(r)
    ensures WellNested(html) && |html| > maxLen && html != "" ==> IsCut(html, r, maxLen)
  {
    if |html| <= maxLen {
      return html;
    }
    ghost var nested := WellNested(html);
    r := CutTokens(html, maxLen, nested);
  }

  /** The state of the token loop. */
  ghost predicate Cutting(html: string, maxLen: int, nested: bool, tokens: seq<string>, k: nat, stop: bool,
                          parts: string, open: seq<string>, rest: string, tagNext: bool) {
    && k <= |tokens| && (!stop ==> Unread(tokens, k, rest, tagNext)) && Fits(parts, open, maxLen)
    && (nested ==> Copied(html, parts, rest, open))
    && (nested && stop ==> NoMoreFits(|parts|, rest, open, maxLen))
  }

  /** One turn keeps it. */
  lemma CuttingTurns(html: string, maxLen: int, nested: bool, tokens: seq<string>, k: nat,
                     parts: string, open: seq<string>, rest: string, tagNext: bool,
                     stop: bool, parts': string, open': seq<string>, taken: nat)
    requires Cutting(html, maxLen, nested, tokens, k, false, parts, open, rest, tagNext) && k < |tokens|
    requires Fits(parts', open', maxLen) && Offered(tokens[k], parts, open, maxLen, stop, parts', open', taken)
    ensures taken <= |rest|
    ensures Cutting(html, maxLen, nested, tokens, k + 1, stop, parts', open', rest[taken..], !tagNext)
  {
    NextToken(tokens, k, rest, tagNext);
    if nested {
      TurnCopies(html, parts, rest, open, tagNext, tokens[k], maxLen, stop, parts', open', taken);
    }
  }

  lemma CuttingEnds(html: string, maxLen: int, nested: bool, tokens: seq<string>, k: nat, stop: bool,
                    parts: string, open: seq<string>, rest: string, tagNext: bool)
    requires Cutting(html, maxLen, nested, tokens, k, stop, parts, open, rest, tagNext) && (stop || k == |tokens|)
    requires |html| > maxLen
    ensures var r := parts + ELLIPSIS + Closers(open);
            && (if maxLen >= 1 then |r| <= maxLen else r == ELLIPSIS)
            && (nested ==> WellNested(r) && (html == "" || IsCut(html, r, maxLen)))
  {
    if nested && !stop {
      AllRead(html, maxLen, parts, rest, open, tokens, k, tagNext);
    }
    CutPromises(html, maxLen, parts, rest, open, nested);
  }

  /** The token loop. */
  method CutTokens(html: string, maxLen: int, ghost nested: bool) returns (r: string)
    requires |html| > maxLen && (nested ==> Nest(html, []) == Some([]))
    ensures if maxLen >= 1 then |r| <= maxLen else r == ELLIPSIS
    ensures nested ==> WellNested(r) && (html == "" || IsCut(html, r, maxLen))
  {
    var tokens := Split(html);
    var open: seq<string>, parts, k: nat, stop := [], "", 0, false;
    ghost var rest, tagNext := html, false;
    NothingRead(html, nested);
    while k < |tokens| && !stop
      invariant Cutting(html, maxLen, nested, tokens, k, stop, parts, open, rest, tagNext)
      decreases |tokens| - k
    {
      ghost var before, wasOpen := parts, open;
      var taken: nat;
      stop, parts, open, taken := Offer(tokens[k], parts, open, maxLen);
      CuttingTurns(html, maxLen, nested, tokens, k, before, wasOpen, rest, tagNext, stop, parts, open, taken);
      rest, tagNext := rest[taken..], !tagNext;
      k := k + 1;
    }
    CuttingEnds(html, maxLen, nested, tokens, k, stop, parts, open, rest, tagNext);
    r := parts + ELLIPSIS + Closers(open);
  }
}
