/**
 * Topic-id extraction from the `/recent` listing page: the global regular
 * expression `href="\/t\/(\d+)(?:#\w+)?"`, the ids de-duplicated in the
 * order a JavaScript `Set` keeps them, and `slice(0, topicCount)`.
 */
module Topics {
  import opened Js

  /** The text that opens every topic link. */
  const LinkPrefix: string := "href=\"/t/"

  datatype CharClass = Digit | Word

  /** `\d` and `\w` of a regular expression without the `u` flag. */
  predicate InClass(c: char, cls: CharClass) {
    match cls
    case Digit => '0' <= c <= '9'
    case Word => '0' <= c <= '9' || 'A' <= c <= 'Z' || 'a' <= c <= 'z' || c == '_'
  }

  predicate AllIn(s: string, cls: CharClass) {
    forall k :: 0 <= k < |s| ==> InClass(s[k], cls)
  }

  /** A fragment the pattern accepts after the id: none, or `#` and one or more word characters. */
  predicate IsFragment(f: string) {
    f == [] || (|f| >= 2 && f[0] == '#' && AllIn(f[1..], Word))
  }

  /** The whole text a match covers. */
  function LinkText(id: string, fragment: string): string {
    LinkPrefix + id + fragment + "\""
  }

  /** `text` begins with a link the pattern matches, capturing `id`. */
  ghost predicate StartsWithLink(text: string, id: string, fragment: string) {
    |id| > 0 && AllIn(id, Digit) && IsFragment(fragment) && LinkText(id, fragment) <= text
  }

  /** A match: the captured id and the fragment the pattern consumed but did not capture. */
  datatype Match = Match(id: string, fragment: string)

  /** The length of the longest prefix of `s` inside `cls` (a greedy `\d+` or `\w+`). */
  function RunLength(s: string, cls: CharClass): (n: nat)
    ensures n <= |s|
    ensures AllIn(s[..n], cls)
    ensures n == |s| || !InClass(s[n], cls)
  {
    if s != [] && InClass(s[0], cls) then 1 + RunLength(s[1..], cls) else 0
  }

  /** A run that ends where the class ends is the longest one. */
  lemma {:induction false} RunLengthExact(s: string, n: nat, cls: CharClass)
    requires n < |s| && AllIn(s[..n], cls) && !InClass(s[n], cls)
    ensures RunLength(s, cls) == n
  {
    if n > 0 {
      assert s[1..][..n - 1] == s[1..n];
      assert s[1..][n - 1] == s[n];
      RunLengthExact(s[1..], n - 1, cls);
    } else {
      assert s[0] == s[n];
    }
  }

  /** `s` begins with `#`, word characters and the closing quote; `id` was captured before it. */
  function MatchFragment(id: string, s: string): (m: Option<Match>)
    requires s != [] && s[0] == '#'
    ensures m.Some? ==> m.value.id == id && IsFragment(m.value.fragment) && m.value.fragment + "\"" <= s
  {
    var w := RunLength(s[1..], Word);
    if w == 0 || 1 + w == |s| || s[1 + w] != '"' then None
    else
      assert s[..1 + w][1..] == s[1..][..w];
      Some(Match(id, s[..1 + w]))
  }

  /** The part of the pattern after `href="/t/`, tried at the start of `s`. */
  function MatchId(s: string): (m: Option<Match>)
    ensures m.Some? ==>
      |m.value.id| > 0 && AllIn(m.value.id, Digit) && IsFragment(m.value.fragment) &&
      m.value.id + m.value.fragment + "\"" <= s
  {
    var d := RunLength(s, Digit);
    if d == 0 || d == |s| then None
    else if s[d] == '"' then Some(Match(s[..d], ""))
    else if s[d] != '#' then None
    else
      var m := MatchFragment(s[..d], s[d..]);
      assert m.Some? ==> s[..d] + m.value.fragment + "\"" == s[..d] + (m.value.fragment + "\"");
      m
  }

  /** The pattern tried at the start of `text`, without backtracking. */
  function MatchLink(text: string): (m: Option<Match>)
    ensures m.Some? ==> StartsWithLink(text, m.value.id, m.value.fragment)
  {
    if !(LinkPrefix <= text) then None
    else
      var m := MatchId(text[|LinkPrefix|..]);
      assert m.Some? ==> LinkText(m.value.id, m.value.fragment) == LinkPrefix + (m.value.id + m.value.fragment + "\"");
      assert text == LinkPrefix + text[|LinkPrefix|..];
      m
  }

  /** A fragment followed by the closing quote is the one `MatchFragment` reports. */
  lemma MatchFragmentComplete(id: string, s: string, fragment: string)
    requires fragment != [] && IsFragment(fragment) && fragment + "\"" <= s
    ensures MatchFragment(id, s) == Some(Match(id, fragment))
  {
    var w := |fragment| - 1;
    assert s[1..][..w] == fragment[1..];
    assert s[1..][w] == '"';
    RunLengthExact(s[1..], w, Word);
    assert s[..1 + w] == fragment;
  }

  /** An id, a fragment and the closing quote are what `MatchId` reports. */
  lemma MatchIdComplete(s: string, id: string, fragment: string)
    requires |id| > 0 && AllIn(id, Digit) && IsFragment(fragment) && id + fragment + "\"" <= s
    ensures MatchId(s) == Some(Match(id, fragment))
  {
    var d := |id|;
    assert s[..d] == id;
    assert s[d] == (fragment + "\"")[0];
    RunLengthExact(s, d, Digit);
    if fragment != [] {
      assert fragment + "\"" <= s[d..];
      MatchFragmentComplete(id, s[d..], fragment);
    }
  }

  /** Every link the pattern accepts at the start of `text` is the one `MatchLink` reports. */
  lemma MatchLinkComplete(text: string, id: string, fragment: string)
    requires StartsWithLink(text, id, fragment)
    ensures MatchLink(text) == Some(Match(id, fragment))
  {
    assert LinkText(id, fragment) == LinkPrefix + (id + fragment + "\"");
    assert LinkPrefix <= text;
    MatchIdComplete(text[|LinkPrefix|..], id, fragment);
  }

  /** `id` is captured by a link somewhere in `text`. */
  ghost predicate LinkedIn(text: string, id: string) {
    exists p, fragment :: 0 <= p <= |text| && StartsWithLink(text[p..], id, fragment)
  }

  /**
   * The captured ids of `text.matchAll(topicRegex)`, in order: after a match
   * the scan resumes at its end, after a failure one character further on.
   */
  function Scan(text: string): (ids: seq<string>)
    decreases |text|
  {
    if text == [] then []
    else
      match MatchLink(text)
      case Some(m) => [m.id] + Scan(text[|LinkText(m.id, m.fragment)|..])
      case None => Scan(text[1..])
  }

  /** Every id the scan captures is a non-empty string of decimal digits. */
  lemma {:induction false} ScanDigits(text: string)
    ensures forall x :: x in Scan(text) ==> |x| > 0 && AllIn(x, Digit)
    decreases |text|
  {
    if text != [] {
      match MatchLink(text)
      case Some(m) =>
        ScanDigits(text[|LinkText(m.id, m.fragment)|..]);
      case None =>
        ScanDigits(text[1..]);
    }
  }

  /** Every id the scan captures stands in a topic link of the text. */
  lemma {:induction false} ScanSound(text: string)
    ensures forall x :: x in Scan(text) ==> LinkedIn(text, x)
    decreases |text|
  {
    if text != [] {
      match MatchLink(text)
      case Some(m) =>
        var n := |LinkText(m.id, m.fragment)|;
        ScanSound(text[n..]);
        SuffixLinks(text, n);
        assert text[0..] == text;
        assert LinkedIn(text, m.id);
      case None =>
        ScanSound(text[1..]);
        SuffixLinks(text, 1);
    }
  }

  /** A link in a suffix of `text` is a link in `text`. */
  lemma SuffixLinks(text: string, start: nat)
    requires start <= |text|
    ensures forall x :: LinkedIn(text[start..], x) ==> LinkedIn(text, x)
  {
    forall x | LinkedIn(text[start..], x)
      ensures LinkedIn(text, x)
    {
      var p, fragment :| 0 <= p <= |text[start..]| && StartsWithLink(text[start..][p..], x, fragment);
      assert text[start..][p..] == text[start + p..];
    }
  }

  /**
   * Every topic link in `text` is captured by the scan: no link can start
   * inside an earlier match, so resuming at a match's end loses none.
   */
  lemma {:induction false} ScanComplete(text: string, x: string)
    requires LinkedIn(text, x)
    ensures x in Scan(text)
    decreases |text|
  {
    var p, fragment :| 0 <= p <= |text| && StartsWithLink(text[p..], x, fragment);
    if p == 0 {
      assert text[0..] == text;
      MatchLinkComplete(text, x, fragment);
    } else {
      match MatchLink(text)
      case Some(m) =>
        var n := |LinkText(m.id, m.fragment)|;
        LinksDoNotOverlap(text, m.id, m.fragment, p, x, fragment);
        assert text[n..][p - n..] == text[p..];
        ScanComplete(text[n..], x);
      case None =>
        assert text[1..][p - 1..] == text[p..];
        ScanComplete(text[1..], x);
    }
  }

  /** A link cannot start inside the text of a link that starts before it. */
  lemma LinksDoNotOverlap(text: string, id: string, fragment: string, p: nat, id': string, fragment': string)
    requires StartsWithLink(text, id, fragment)
    requires 0 < p <= |text| && StartsWithLink(text[p..], id', fragment')
    ensures p >= |LinkText(id, fragment)|
  {
    var l, l' := LinkText(id, fragment), LinkText(id', fragment');
    LinkShape(id, fragment);
    assert l'[..|LinkPrefix|] == LinkPrefix;
    assert text[p..][..5] == l'[..5] == "href=";
    assert text[p] == 'h' && text[p + 1] == 'r' && text[p + 2] == 'e' && text[p + 3] == 'f' && text[p + 4] == '=';
    assert forall k :: 0 <= k < |l| ==> text[k] == l[k];
  }

  /**
   * Where a link's characters may be: an `h` only at its start or in the
   * fragment's word characters, which run up to the closing quote.
   */
  lemma LinkShape(id: string, fragment: string)
    requires AllIn(id, Digit) && IsFragment(fragment)
    ensures var l, f := LinkText(id, fragment), |LinkPrefix| + |id|;
      && |l| == f + |fragment| + 1
      && (forall k :: 0 < k <= f ==> l[k] != 'h')
      && (forall k :: f < k < |l| - 1 ==> InClass(l[k], Word))
      && l[|l| - 1] == '"'
  {
    var l, f := LinkText(id, fragment), |LinkPrefix| + |id|;
    forall k | 0 < k < |LinkPrefix| ensures l[k] != 'h' {
      assert l[k] == LinkPrefix[k];
    }
    forall k | |LinkPrefix| <= k < f ensures l[k] != 'h' {
      assert l[k] == id[k - |LinkPrefix|];
    }
    assert l[f] == (fragment + "\"")[0];
    forall k | f < k < |l| - 1 ensures InClass(l[k], Word) {
      assert l[k] == fragment[1..][k - f - 1];
    }
  }

  /** The scan captures exactly the ids of the topic links in the text. */
  lemma ScanFindsLinks(text: string)
    ensures forall x :: x in Scan(text) <==> LinkedIn(text, x)
  {
    ScanSound(text);
    forall x | LinkedIn(text, x)
      ensures x in Scan(text)
    {
      ScanComplete(text, x);
    }
  }

  predicate Distinct(s: seq<string>) {
    forall a, b :: 0 <= a < b < |s| ==> s[a] != s[b]
  }

  /** The position where `x` first occurs in `s`. */
  function FirstIndex(s: seq<string>, x: string): (k: nat)
    requires x in s
    ensures k < |s| && s[k] == x
    ensures forall j :: 0 <= j < k ==> s[j] != x
  {
    if s[0] == x then 0 else 1 + FirstIndex(s[1..], x)
  }

  /**
   * `[...new Set(ids)]`: every id once, at the place it was first seen.
   */
  function Dedup(ids: seq<string>): (r: seq<string>)
    ensures Distinct(r)
    ensures forall x :: x in r <==> x in ids
    ensures forall a, b :: 0 <= a < b < |r| ==> FirstIndex(ids, r[a]) < FirstIndex(ids, r[b])
  {
    if ids == [] then []
    else
      var init, x := ids[..|ids| - 1], ids[|ids| - 1];
      var r := Dedup(init);
      assert ids == init + [x];
      DedupExtend(init, x, r);
      if x in r then r else r + [x]
  }

  /** Adding one more id to the set keeps it duplicate-free and in first-seen order. */
  lemma DedupExtend(init: seq<string>, x: string, r: seq<string>)
    requires Distinct(r)
    requires forall y :: y in r <==> y in init
    requires forall a, b :: 0 <= a < b < |r| ==> FirstIndex(init, r[a]) < FirstIndex(init, r[b])
    ensures var r' := if x in r then r else r + [x];
      && Distinct(r')
      && (forall y :: y in r' <==> y in init + [x])
      && (forall a, b :: 0 <= a < b < |r'| ==> FirstIndex(init + [x], r'[a]) < FirstIndex(init + [x], r'[b]))
  {
    DedupExtendOrder(init, x, r);
  }

  lemma DedupExtendOrder(init: seq<string>, x: string, r: seq<string>)
    requires forall y :: y in r <==> y in init
    requires forall a, b :: 0 <= a < b < |r| ==> FirstIndex(init, r[a]) < FirstIndex(init, r[b])
    ensures var r' := if x in r then r else r + [x];
      forall a, b :: 0 <= a < b < |r'| ==> FirstIndex(init + [x], r'[a]) < FirstIndex(init + [x], r'[b])
  {
    var r' := if x in r then r else r + [x];
    forall a, b | 0 <= a < b < |r'|
      ensures FirstIndex(init + [x], r'[a]) < FirstIndex(init + [x], r'[b])
    {
      assert r'[a] == r[a] && r[a] in r;
      FirstIndexAppend(init, [x], r'[a]);
      if b < |r| {
        assert r'[b] == r[b] && r[b] in r;
        FirstIndexAppend(init, [x], r'[b]);
      } else {
        FirstIndexLast(init, x);
      }
    }
  }

  /** An id already in `s` is first seen at the same place after anything is appended. */
  lemma {:induction false} FirstIndexAppend(s: seq<string>, t: seq<string>, y: string)
    requires y in s
    ensures y in s + t && FirstIndex(s + t, y) == FirstIndex(s, y)
  {
    if s[0] != y {
      assert (s + t)[1..] == s[1..] + t;
      FirstIndexAppend(s[1..], t, y);
    }
  }

  /** A new id appended at the end is first seen there. */
  lemma {:induction false} FirstIndexLast(s: seq<string>, x: string)
    requires x !in s
    ensures x in s + [x] && FirstIndex(s + [x], x) == |s|
  {
    if s != [] {
      assert (s + [x])[1..] == s[1..] + [x];
      FirstIndexLast(s[1..], x);
    }
  }

  /** The end index `Array.prototype.slice(0, count)` uses on a list of `length` items. */
  function SliceEnd(length: nat, count: int): (e: nat)
    ensures e <= length
  {
    if count < 0 then (if length + count < 0 then 0 else length + count)
    else if count < length then count
    else length
  }

  /** The topic ids one browsing pass visits. */
  function TopicIds(listing: string, topicCount: int): (ids: seq<string>)
    ensures Distinct(ids)
    ensures ids <= Dedup(Scan(listing))
    ensures 0 <= topicCount ==>
      |ids| == (if topicCount < |Dedup(Scan(listing))| then topicCount else |Dedup(Scan(listing))|)
    ensures forall k :: 0 <= k < |ids| ==> |ids[k]| > 0 && AllIn(ids[k], Digit)
  {
    var unique := Dedup(Scan(listing));
    var ids := unique[..SliceEnd(|unique|, topicCount)];
    ScanDigits(listing);
    assert forall k :: 0 <= k < |ids| ==> ids[k] in Scan(listing);
    ids
  }

  /** Every id a browsing pass visits comes from a topic link of the listing. */
  lemma TopicIdsFromLinks(listing: string, topicCount: int)
    ensures forall x :: x in TopicIds(listing, topicCount) ==> LinkedIn(listing, x)
  {
    ScanSound(listing);
  }

  /** A text made of one link after another. */
  function Links(ids: seq<string>, fragments: seq<string>): string
    requires |ids| == |fragments|
  {
    if ids == [] then [] else LinkText(ids[0], fragments[0]) + Links(ids[1..], fragments[1..])
  }

  /** A text made only of topic links scans to exactly their ids, in order, repeats included. */
  lemma {:induction false} ScanLinks(ids: seq<string>, fragments: seq<string>)
    requires |ids| == |fragments|
    requires forall k :: 0 <= k < |ids| ==> |ids[k]| > 0 && AllIn(ids[k], Digit) && IsFragment(fragments[k])
    ensures Scan(Links(ids, fragments)) == ids
  {
    if ids != [] {
      ScanLinks(ids[1..], fragments[1..]);
      ScanLink(Links(ids, fragments), ids[0], fragments[0], Links(ids[1..], fragments[1..]));
    }
  }

  /**
   * Links for a, b (with a fragment), a again and c, limited to two: the
   * pass visits a and b (as for the ids 100, 200#r1, 100, 300).
   */
  lemma DedupAndLimitExample(a: string, b: string, c: string, fragment: string)
    requires |a| > 0 && |b| > 0 && |c| > 0
    requires AllIn(a, Digit) && AllIn(b, Digit) && AllIn(c, Digit) && IsFragment(fragment)
    requires a != b && b != c && a != c
    ensures TopicIds(Links([a, b, a, c], ["", fragment, "", ""]), 2) == [a, b]
  {
    ScanLinks([a, b, a, c], ["", fragment, "", ""]);
    ExampleDedup(a, b, c);
    assert [a, b, c][..2] == [a, b];
  }

  lemma ExampleDedup(a: string, b: string, c: string)
    requires a != b && b != c && a != c
    ensures Dedup([a, b, a, c]) == [a, b, c]
  {
    ExampleDedupPrefix(a, b);
    var s := [a, b, a, c];
    assert s[..3] == [a, b, a];
    assert c !in [a, b];
  }

  lemma ExampleDedupPrefix(a: string, b: string)
    requires a != b
    ensures Dedup([a, b, a]) == [a, b]
  {
    assert [a, b, a][..2] == [a, b];
    assert [a, b][..1] == [a];
    assert [a][..0] == [];
    assert Dedup([a]) == [a];
    assert Dedup([a, b]) == [a, b];
  }

  /** A text that starts with a link scans to its id followed by the scan of the rest. */
  lemma ScanLink(text: string, id: string, fragment: string, rest: string)
    requires |id| > 0 && AllIn(id, Digit) && IsFragment(fragment)
    requires text == LinkText(id, fragment) + rest
    ensures Scan(text) == [id] + Scan(rest)
  {
    MatchLinkComplete(text, id, fragment);
    assert text[|LinkText(id, fragment)|..] == rest;
  }
}
