/** The If-None-Match scanner of the desired-state server (section 13.1.2 of RFC 9110). */
module IfNoneMatch {
  import opened Prelude

  // ---- Trimming --------------------------------------------------------------------

  /** Unicode white space, as `strings.TrimSpace` knows it. */
  predicate IsSpace(c: char) {
    || '\t' <= c <= '\r' || c == ' ' || c == '\U{85}' || c == '\U{A0}' || c == '\U{1680}'
    || '\U{2000}' <= c <= '\U{200a}' || c == '\U{2028}' || c == '\U{2029}' || c == '\U{202f}'
    || c == '\U{205f}' || c == '\U{3000}'
  }

  predicate IsSeparator(c: char) { c == ' ' || c == '\t' || c == ',' }

  predicate IsBlank(c: char) { c == ' ' || c == '\t' }

  function TrimLeft(s: string, drop: char -> bool): (r: string)
    ensures |r| <= |s| && (r != "" ==> !drop(r[0]))
  {
    if s != "" && drop(s[0]) then TrimLeft(s[1..], drop) else s
  }

  function TrimRight(s: string, drop: char -> bool): (r: string)
    ensures |r| <= |s|
  {
    if s != "" && drop(s[|s| - 1]) then TrimRight(s[..|s| - 1], drop) else s
  }

  function TrimSpace(s: string): string { TrimRight(TrimLeft(s, IsSpace), IsSpace) }

  // ---- One header value ------------------------------------------------------------

  /** The first unescaped quote at or after `i`. */
  function CloseQuote(s: string, i: nat, escaped: bool): (r: Option<nat>)
    ensures r.Some? ==> i <= r.value < |s|
    decreases |s| - i
  {
    if i >= |s| then None
    else if s[i] == '\\' then CloseQuote(s, i + 1, !escaped)
    else if s[i] == '"' && !escaped then Some(i)
    else CloseQuote(s, i + 1, false)
  }

  function FirstComma(s: string): (r: Option<nat>)
    ensures r.Some? ==> r.value < |s|
  {
    if s == "" then None
    else if s[0] == ',' then Some(0)
    else
      var rest := FirstComma(s[1..]);
      if rest.Some? then Some(rest.value + 1) else None
  }

  predicate IsWeak(s: string) { "W/" <= s }

  /** What follows the weakness mark, if there is one. */
  function Opaque(s: string): (r: string)
    ensures |r| <= |s|
  {
    if IsWeak(s) then TrimLeft(s[2..], IsBlank) else s
  }

  predicate Scan(s: string, current: string)
    decreases |s|
  {
    var head := TrimLeft(s, IsSeparator);
    if head == "" then false
    else if head[0] == '*' then true
    else
      var tag := Opaque(head);
      if tag == "" || tag[0] != '"' then
        var comma := FirstComma(tag);
        comma.Some? && Scan(tag[comma.value + 1..], current)
      else
        var end := CloseQuote(tag, 1, false);
        end.Some? &&
        ((if IsWeak(head) then "W/" else "") + tag[..end.value + 1] == current || Scan(tag[end.value + 1..], current))
  }

  /** The whole header: any value that matches, for a resource that has a tag. */
  predicate HasETag(values: seq<string>, current: string) {
    current != "" && exists i :: 0 <= i < |values| && Scan(TrimSpace(values[i]), current)
  }

  // ---- Renderings ------------------------------------------------------------------

  datatype Tag = Tag(weak: bool, text: string)

  /** Text in which every quote and backslash is escaped by a backslash; commas and stars are fine. */
  predicate Quotable(text: string) {
    || text == ""
    || (text[0] == '\\' && |text| > 1 && Quotable(text[2..]))
    || (text[0] != '\\' && text[0] != '"' && Quotable(text[1..]))
  }

  predicate WellQuoted(t: Tag) { Quotable(t.text) }

  /** Text without quotes and backslashes is such text. */
  lemma {:induction false} PlainIsQuotable(text: string)
    requires '"' !in text && '\\' !in text
    ensures Quotable(text)
  {
    if text != "" {
      assert text[0] in text;
      PlainIsQuotable(text[1..]);
    }
  }

  function RenderTag(t: Tag): string { (if t.weak then "W/" else "") + "\"" + t.text + "\"" }

  predicate AreSeparators(s: string) { forall c :: c in s ==> IsSeparator(c) }

  predicate AllSeparators(seps: seq<string>) { forall s :: s in seps ==> AreSeparators(s) }

  /** Tags with separators before, between and after them. */
  function Render(tags: seq<Tag>, seps: seq<string>): string
    requires |seps| == |tags| + 1
  {
    if tags == [] then seps[0] else seps[0] + RenderTag(tags[0]) + Render(tags[1..], seps[1..])
  }

  lemma {:induction false} TrimAll(s: string, rest: string, drop: char -> bool)
    requires (forall c :: c in s ==> drop(c)) && (rest == "" || !drop(rest[0]))
    ensures TrimLeft(s + rest, drop) == rest
  {
    if s == "" {
      assert s + rest == rest;
    } else {
      assert s[0] in s && (s + rest)[0] == s[0];
      assert (s + rest)[1..] == s[1..] + rest;
      TrimAll(s[1..], rest, drop);
    }
  }

  lemma {:induction false} ClosesAt(s: string, i: nat, n: nat)
    requires i <= n < |s| && s[n] == '"' && Quotable(s[i..n])
    ensures CloseQuote(s, i, false) == Some(n)
    decreases n - i
  {
    if i < n {
      if s[i] == '\\' {
        assert s[i..n][2..] == s[i + 2..n];
        ClosesAt(s, i + 2, n);
        assert CloseQuote(s, i + 1, true) == CloseQuote(s, i + 2, false);
      } else {
        assert s[i..n][1..] == s[i + 1..n];
        ClosesAt(s, i + 1, n);
      }
    }
  }

  /** The tag that a rendering starts with is read off exactly. */
  lemma ReadsTag(t: Tag, rest: string)
    requires WellQuoted(t)
    ensures var s := RenderTag(t) + rest;
      var tag := Opaque(s);
      var end := CloseQuote(tag, 1, false);
      && s[0] != '*' && !IsSeparator(s[0]) && IsWeak(s) == t.weak
      && tag == "\"" + t.text + "\"" + rest
      && end == Some(|t.text| + 1)
      && tag[..|t.text| + 2] == "\"" + t.text + "\"" && tag[|t.text| + 2..] == rest
  {
    var s, quoted := RenderTag(t) + rest, "\"" + t.text + "\"" + rest;
    if t.weak {
      assert s[..2] == "W/" && s[2..] == quoted;
      assert quoted[0] == '"';
    } else {
      assert s == quoted && s[0] == '"';
    }
    QuotedParts(t.text, rest);
    ClosesAt(quoted, 1, |t.text| + 1);
  }

  lemma QuotedParts(text: string, rest: string)
    ensures var quoted := "\"" + text + "\"" + rest;
      && quoted[1..|text| + 1] == text && quoted[|text| + 1] == '"'
      && quoted[..|text| + 2] == "\"" + text + "\"" && quoted[|text| + 2..] == rest
  {
  }

  lemma TagsDiffer(a: Tag, b: Tag)
    requires RenderTag(a) == RenderTag(b)
    ensures a == b
  {
    var x, y := RenderTag(a), RenderTag(b);
    assert x[0] == if a.weak then 'W' else '"';
    assert y[0] == if b.weak then 'W' else '"';
    assert a.weak == b.weak;
    var n := if a.weak then 3 else 1;
    assert a.text == x[n..|x| - 1];
    assert b.text == y[n..|y| - 1];
  }

  lemma ScanQuoted(s: string, head: string, tag: string, end: nat, current: string)
    requires TrimLeft(s, IsSeparator) == head && head != "" && head[0] != '*' && Opaque(head) == tag
    requires end < |tag| && tag[0] == '"' && CloseQuote(tag, 1, false) == Some(end)
    ensures Scan(s, current) <==>
            (if IsWeak(head) then "W/" else "") + tag[..end + 1] == current || Scan(tag[end + 1..], current)
  {
  }

  lemma ScanHead(s: string, t: Tag, rest: string, current: string)
    requires WellQuoted(t) && TrimLeft(s, IsSeparator) == RenderTag(t) + rest
    ensures Scan(s, current) <==> RenderTag(t) == current || Scan(rest, current)
  {
    var head := RenderTag(t) + rest;
    ReadsTag(t, rest);
    ScanQuoted(s, head, Opaque(head), |t.text| + 1, current);
    assert RenderTag(t) == (if t.weak then "W/" else "") + ("\"" + t.text + "\"");
  }

  lemma ScanStep(sep: string, t: Tag, rest: string, current: Tag)
    requires AreSeparators(sep) && WellQuoted(t)
    ensures Scan(sep + (RenderTag(t) + rest), RenderTag(current)) <==> t == current || Scan(rest, RenderTag(current))
  {
    var head := RenderTag(t) + rest;
    assert head[0] == 'W' || head[0] == '"';
    TrimAll(sep, head, IsSeparator);
    ScanHead(sep + head, t, rest, RenderTag(current));
    if RenderTag(t) == RenderTag(current) { TagsDiffer(t, current); }
  }

  /** On a rendering the scan finds the current tag exactly when it is a member, weakness included. */
  lemma {:induction false} ScanIsMembership(tags: seq<Tag>, seps: seq<string>, current: Tag)
    requires |seps| == |tags| + 1
    requires forall t :: t in tags ==> WellQuoted(t)
    requires AllSeparators(seps)
    ensures Scan(Render(tags, seps), RenderTag(current)) <==> current in tags
    decreases |tags|
  {
    assert seps[0] in seps;
    if tags == [] {
      TrimAll(seps[0], "", IsSeparator);
      assert seps[0] + "" == seps[0];
    } else {
      var t, rest := tags[0], Render(tags[1..], seps[1..]);
      assert t in tags && AreSeparators(seps[0]);
      assert Render(tags, seps) == seps[0] + (RenderTag(t) + rest);
      ScanStep(seps[0], t, rest, current);
      ScanIsMembership(tags[1..], seps[1..], current);
      assert tags == [t] + tags[1..];
    }
  }

  // ---- Stars and words -------------------------------------------------------------

  /** A star matches any current tag. */
  lemma StarMatches(sep: string, rest: string, current: string)
    requires AreSeparators(sep)
    ensures Scan(sep + ("*" + rest), current)
  {
    TrimAll(sep, "*" + rest, IsSeparator);
  }

  lemma {:induction false} CommaAfter(word: string, rest: string)
    requires ',' !in word
    ensures FirstComma(word) == None && FirstComma(word + "," + rest) == Some(|word|)
  {
    if word == "" {
      assert word + "," + rest == "," + rest;
    } else {
      assert word[0] in word && (word + "," + rest)[1..] == word[1..] + "," + rest;
      CommaAfter(word[1..], rest);
    }
  }

  lemma ScanWord(s: string, head: string, tag: string, current: string)
    requires TrimLeft(s, IsSeparator) == head && head != "" && head[0] != '*' && Opaque(head) == tag
    requires tag == "" || tag[0] != '"'
    ensures Scan(s, current) <==> FirstComma(tag).Some? && Scan(tag[FirstComma(tag).value + 1..], current)
  {
  }

  /** A member that is not quoted is skipped to the next comma, and ends the scan if there is none. */
  lemma WordIsSkipped(sep: string, word: string, rest: string, current: string)
    requires AreSeparators(sep) && word != "" && ',' !in word && !("W/" <= word)
    requires !IsSeparator(word[0]) && word[0] != '*' && word[0] != '"'
    ensures Scan(sep + (word + "," + rest), current) <==> Scan(rest, current)
    ensures !Scan(sep + word, current)
  {
    var head := word + "," + rest;
    CommaAfter(word, rest);
    TrimAll(sep, head, IsSeparator);
    TrimAll(sep, word, IsSeparator);
    assert |word| == 1 ==> head[1] == ',';
    assert |word| > 1 ==> head[..2] == word[..2];
    ScanWord(sep + head, head, head, current);
    ScanWord(sep + word, word, word, current);
    assert head[|word| + 1..] == rest;
  }

  /** So is one that is marked weak but not quoted, white space after the mark or not. */
  lemma WeakWordIsSkipped(sep: string, blanks: string, word: string, rest: string, current: string)
    requires AreSeparators(sep) && (forall c :: c in blanks ==> IsBlank(c)) && ',' !in word
    requires word == "" || (!IsBlank(word[0]) && word[0] != '"')
    ensures Scan(sep + ("W/" + (blanks + (word + "," + rest))), current) <==> Scan(rest, current)
  {
    var tag := word + "," + rest;
    var head := "W/" + (blanks + tag);
    CommaAfter(word, rest);
    TrimAll(sep, head, IsSeparator);
    assert head[..2] == "W/" && head[2..] == blanks + tag;
    TrimAll(blanks, tag, IsBlank);
    ScanWord(sep + head, head, tag, current);
    assert tag[|word| + 1..] == rest;
  }

  // ---- Trimming keeps renderings ---------------------------------------------------

  /** Trimming a rendering only shortens its first and last separators. */
  lemma {:induction false} TrimLeftRender(tags: seq<Tag>, seps: seq<string>) returns (seps': seq<string>)
    requires |seps| == |tags| + 1 && AllSeparators(seps)
    ensures |seps'| == |seps| && AllSeparators(seps')
    ensures TrimLeft(Render(tags, seps), IsSpace) == Render(tags, seps')
  {
    var first := TrimLeft(seps[0], IsSpace);
    seps' := seps[0 := first];
    assert AreSeparators(seps[0]);
    TrimLeftKeeps(seps[0]);
    if tags != [] {
      var rest := RenderTag(tags[0]) + Render(tags[1..], seps[1..]);
      assert Render(tags, seps) == seps[0] + rest;
      assert seps'[1..] == seps[1..];
      assert Render(tags, seps') == first + rest;
      assert rest[0] == 'W' || rest[0] == '"';
      TrimLeftPrefix(seps[0], rest);
    }
  }

  lemma {:induction false} TrimLeftKeeps(s: string)
    requires AreSeparators(s)
    ensures AreSeparators(TrimLeft(s, IsSpace))
  {
    if s != "" && IsSpace(s[0]) { TrimLeftKeeps(s[1..]); }
  }

  lemma {:induction false} TrimLeftPrefix(s: string, rest: string)
    requires rest != "" && !IsSpace(rest[0])
    ensures TrimLeft(s + rest, IsSpace) == TrimLeft(s, IsSpace) + rest
  {
    if s == "" {
      assert s + rest == rest;
    } else if IsSpace(s[0]) {
      assert (s + rest)[1..] == s[1..] + rest;
      TrimLeftPrefix(s[1..], rest);
    }
  }

  lemma {:induction false} TrimRightRender(tags: seq<Tag>, seps: seq<string>) returns (seps': seq<string>)
    requires |seps| == |tags| + 1 && AllSeparators(seps)
    ensures |seps'| == |seps| && AllSeparators(seps')
    ensures TrimRight(Render(tags, seps), IsSpace) == Render(tags, seps')
    decreases |tags|
  {
    assert AreSeparators(seps[0]);
    if tags == [] {
      TrimRightKeeps(seps[0]);
      seps' := [TrimRight(seps[0], IsSpace)];
    } else {
      var tail := TrimRightRender(tags[1..], seps[1..]);
      seps' := [seps[0]] + tail;
      assert seps'[1..] == tail;
      var front := seps[0] + RenderTag(tags[0]);
      assert front[|front| - 1] == '"';
      TrimRightSuffix(front, Render(tags[1..], seps[1..]));
    }
  }

  lemma {:induction false} TrimRightKeeps(s: string)
    requires AreSeparators(s)
    ensures AreSeparators(TrimRight(s, IsSpace))
  {
    if s != "" && IsSpace(s[|s| - 1]) { TrimRightKeeps(s[..|s| - 1]); }
  }

  lemma {:induction false} TrimRightSuffix(front: string, s: string)
    requires front != "" && !IsSpace(front[|front| - 1])
    ensures TrimRight(front + s, IsSpace) == front + TrimRight(s, IsSpace)
    decreases |s|
  {
    if s == "" {
      assert front + s == front;
    } else if IsSpace(s[|s| - 1]) {
      assert (front + s)[..|front + s| - 1] == front + s[..|s| - 1];
      TrimRightSuffix(front, s[..|s| - 1]);
    }
  }

  // ---- The main result -------------------------------------------------------------

  /** A header whose values all render lists of entity tags. */
  ghost predicate Renders(values: seq<string>, lists: seq<seq<Tag>>) {
    && |values| == |lists|
    && forall i :: 0 <= i < |values| ==> RendersOne(values[i], lists[i])
  }

  ghost predicate RendersOne(value: string, tags: seq<Tag>) {
    && (forall t :: t in tags ==> WellQuoted(t))
    && exists seps: seq<string> :: |seps| == |tags| + 1 && AllSeparators(seps) && value == Render(tags, seps)
  }

  lemma ValueIsMembership(value: string, tags: seq<Tag>, current: Tag)
    requires RendersOne(value, tags)
    ensures Scan(TrimSpace(value), RenderTag(current)) <==> current in tags
  {
    var seps: seq<string> :| |seps| == |tags| + 1 && AllSeparators(seps) && value == Render(tags, seps);
    var left := TrimLeftRender(tags, seps);
    var both := TrimRightRender(tags, left);
    ScanIsMembership(tags, both, current);
  }

  /** For every rendering of lists of entity tags over any number of header values, the answer is yes
      exactly when one of the lists holds the current tag with the same weakness. */
  lemma HeaderIsMembership(values: seq<string>, lists: seq<seq<Tag>>, current: Tag)
    requires Renders(values, lists)
    ensures HasETag(values, RenderTag(current)) <==> exists i :: 0 <= i < |lists| && current in lists[i]
  {
    forall i | 0 <= i < |values| ensures Scan(TrimSpace(values[i]), RenderTag(current)) <==> current in lists[i] {
      ValueIsMembership(values[i], lists[i], current);
    }
    assert RenderTag(current) != "";
  }

  // ---- The scanner as it runs ------------------------------------------------------

  method ClientHasETag(values: seq<string>, current: string) returns (has: bool)
    ensures has == HasETag(values, current)
  {
    if current == "" || |values| == 0 { return false; }
    for i := 0 to |values|
      invariant forall k :: 0 <= k < i ==> !Scan(TrimSpace(values[k]), current)
    {
      var found := ScanValue(TrimSpace(values[i]), current);
      if found { return true; }
    }
    return false;
  }

  method ScanValue(value: string, current: string) returns (found: bool)
    ensures found == Scan(value, current)
  {
    var remaining := value;
    while |remaining| > 0
      invariant Scan(remaining, current) == Scan(value, current)
      decreases |remaining|
    {
      var head := TrimLeft(remaining, IsSeparator);
      if head == "" { return false; }
      if head[0] == '*' { return true; }
      var weak := IsWeak(head);
      var tag := Opaque(head);
      if tag == "" || tag[0] != '"' {
        var comma := FirstComma(tag);
        if comma.None? { return false; }
        remaining := tag[comma.value + 1..];
        continue;
      }
      var end, escaped := 1, false;
      while end < |tag| && !(tag[end] == '"' && !escaped)
        invariant 1 <= end <= |tag|
        invariant CloseQuote(tag, 1, false) == CloseQuote(tag, end, escaped)
      {
        escaped := tag[end] == '\\' && !escaped;
        end := end + 1;
      }
      if end == |tag| { return false; }
      end := end + 1;
      if (if weak then "W/" else "") + tag[..end] == current { return true; }
      remaining := tag[end..];
    }
    return false;
  }
}
