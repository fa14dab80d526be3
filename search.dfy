/** The event search shared by the header's search box and the search
    dialog: a query that trims to nothing finds nothing; otherwise an event
    matches when its lower-cased title, description or location contains the
    lower-cased query, and the matches keep the list's order. */
module Search {
  import opened Seqs
  import opened Events

  /** The characters `String.prototype.trim` removes: the ECMAScript white
      space and line terminators. */
  predicate IsWhitespace(c: char) {
    || c == '\t' || c == '\n' || c == '\U{000B}' || c == '\U{000C}' || c == '\r' || c == ' '
    || c == '\U{00A0}' || c == '\U{1680}' || ('\U{2000}' <= c <= '\U{200A}')
    || c == '\U{2028}' || c == '\U{2029}' || c == '\U{202F}' || c == '\U{205F}'
    || c == '\U{3000}' || c == '\U{FEFF}'
  }

  /** `s.trim()`. */
  function Trim(s: string): string {
    TrimEnd(TrimStart(s))
  }

  function TrimStart(s: string): (r: string)
    ensures |r| <= |s| && r == s[|s| - |r|..]
    ensures r != [] ==> !IsWhitespace(r[0])
  {
    if s != [] && IsWhitespace(s[0]) then TrimStart(s[1..]) else s
  }

  function TrimEnd(s: string): (r: string)
    ensures |r| <= |s| && r == s[..|r|]
    ensures r != [] ==> !IsWhitespace(r[|r| - 1])
  {
    if s != [] && IsWhitespace(s[|s| - 1]) then TrimEnd(s[..|s| - 1]) else s
  }

  predicate IsBlank(s: string) {
    forall i :: 0 <= i < |s| ==> IsWhitespace(s[i])
  }

  /** `s.trim() === ''` exactly when every character of `s` is white space. */
  lemma {:induction false} TrimEmptyIffBlank(s: string)
    ensures Trim(s) == "" <==> IsBlank(s)
  {
    TrimStartEmptyIffBlank(s);
    var t := TrimStart(s);
    if t != [] {
      assert TrimEnd(t) != [] by {
        TrimEndKeepsHead(t);
      }
    }
  }

  lemma {:induction false} TrimStartEmptyIffBlank(s: string)
    ensures TrimStart(s) == "" <==> IsBlank(s)
  {
    if s != [] {
      if IsWhitespace(s[0]) {
        TrimStartEmptyIffBlank(s[1..]);
        BlankTail(s);
      } else {
        assert !IsBlank(s);
      }
    }
  }

  /** After leading white space, the rest is blank exactly when the whole is. */
  lemma BlankTail(s: string)
    requires s != [] && IsWhitespace(s[0])
    ensures IsBlank(s) <==> IsBlank(s[1..])
  {
    if IsBlank(s[1..]) {
      forall i | 0 < i < |s|
        ensures IsWhitespace(s[i])
      {
        assert s[i] == s[1..][i - 1];
      }
    }
  }

  /** A string whose first character is not white space does not trim away
      at the end. */
  lemma {:induction false} TrimEndKeepsHead(s: string)
    requires s != [] && !IsWhitespace(s[0])
    ensures TrimEnd(s) != []
  {
    if IsWhitespace(s[|s| - 1]) {
      assert |s| > 1;
      TrimEndKeepsHead(s[..|s| - 1]);
    }
  }

  /** Lower case of one character: ASCII and Latin-1 capitals. */
  function LowerChar(c: char): char {
    if 'A' <= c <= 'Z' || ('\U{00C0}' <= c <= '\U{00DE}' && c != '\U{00D7}') then (c as int + 32) as char else c
  }

  /** `s.toLowerCase()`. */
  function Lower(s: string): (r: string)
    ensures |r| == |s|
    ensures forall i :: 0 <= i < |s| ==> r[i] == LowerChar(s[i])
  {
    seq(|s|, i requires 0 <= i < |s| => LowerChar(s[i]))
  }

  /** Lower-casing twice is lower-casing once. */
  lemma LowerIdempotent(s: string)
    ensures Lower(Lower(s)) == Lower(s)
  {
  }

  /** Lower-casing keeps exactly the white space, so it keeps blankness. */
  lemma LowerKeepsBlank(s: string)
    ensures IsBlank(Lower(s)) <==> IsBlank(s)
  {
    assert forall c :: IsWhitespace(LowerChar(c)) <==> IsWhitespace(c);
  }

  /** `q` occurs in `text` starting at position `i`. */
  predicate OccursAt(text: string, q: string, i: int) {
    0 <= i && i + |q| <= |text| && text[i..i + |q|] == q
  }

  /** `text.includes(q)`. */
  predicate Contains(text: string, q: string)
    decreases |text|
  {
    (|q| <= |text| && text[..|q|] == q) || (text != [] && Contains(text[1..], q))
  }

  /** `includes` finds `q` exactly when it occurs at some position. */
  lemma {:induction false} ContainsIffOccurs(text: string, q: string)
    ensures Contains(text, q) <==> exists i :: OccursAt(text, q, i)
    decreases |text|
  {
    if |q| <= |text| && text[..|q|] == q {
      assert OccursAt(text, q, 0);
    }
    if text != [] {
      ContainsIffOccurs(text[1..], q);
      if exists i :: OccursAt(text[1..], q, i) {
        var i :| OccursAt(text[1..], q, i);
        assert text[i + 1..i + 1 + |q|] == text[1..][i..i + |q|];
        assert OccursAt(text, q, i + 1);
      }
      if exists i :: OccursAt(text, q, i) {
        var i :| OccursAt(text, q, i);
        if i > 0 {
          assert text[1..][i - 1..i - 1 + |q|] == text[i..i + |q|];
          assert OccursAt(text[1..], q, i - 1);
        }
      }
    } else if exists i :: OccursAt(text, q, i) {
      var i :| OccursAt(text, q, i);
      assert |q| == 0 && text[..0] == q;
    }
  }

  /** The search fields of an event, lower-cased; a missing one is "". */
  predicate Matches(e: Event, query: string) {
    Contains(Lower(e.title.GetOr("")), query)
    || Contains(Lower(e.description.GetOr("")), query)
    || Contains(Lower(e.location.GetOr("")), query)
  }

  /** The search effect: nothing for a blank query, otherwise the events
      matching the lower-cased (but untrimmed) query, in list order. */
  function SearchResults(events: seq<Event>, query: string): seq<Event> {
    if Trim(query) == "" then [] else Filter(e => Matches(e, Lower(query)), events)
  }

  /** A blank query finds nothing; any other finds exactly the matching
      events of the list, in their order. */
  lemma SearchResultsExact(events: seq<Event>, query: string)
    ensures IsBlank(query) ==> SearchResults(events, query) == []
    ensures !IsBlank(query) ==>
              (forall e :: e in SearchResults(events, query) <==> e in events && Matches(e, Lower(query)))
              && IsSubsequence(SearchResults(events, query), events)
  {
    TrimEmptyIffBlank(query);
    if !IsBlank(query) {
      var p := (e: Event) => Matches(e, Lower(query));
      forall e | true
        ensures e in SearchResults(events, query) <==> e in events && Matches(e, Lower(query))
      {
        FilterMembership(p, events, e);
      }
      FilterIsSubsequence(p, events);
    }
  }

  /** The search ignores the case of the query. */
  lemma SearchIgnoresQueryCase(events: seq<Event>, query: string)
    ensures SearchResults(events, Lower(query)) == SearchResults(events, query)
  {
    LowerIdempotent(query);
    LowerKeepsBlank(query);
    TrimEmptyIffBlank(query);
    TrimEmptyIffBlank(Lower(query));
  }
}
