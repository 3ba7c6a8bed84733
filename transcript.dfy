/** Turning a spoken transcript into order items: the string handling of
    `transcript.split(',').map(item => item.trim()).filter(Boolean)` and the
    blank-transcript test `!transcript.trim()`, with JavaScript's `split`
    on a one-character separator and its `trim`. */
module Transcript {

  /** The characters JavaScript's `trim` removes: the WhiteSpace class (tab,
      vertical tab, form feed, byte-order mark and every Zs space separator)
      and the LineTerminator class (line feed, carriage return, U+2028,
      U+2029). All of them lie in the Basic Multilingual Plane, so working on
      characters and working on UTF-16 code units agree here. */
  predicate IsWhitespace(c: char) {
    || c == '\t' || c == '\n' || c == '\U{000B}' || c == '\U{000C}' || c == '\r'
    || c == ' ' || c == '\U{00A0}' || c == '\U{1680}'
    || ('\U{2000}' <= c <= '\U{200A}')
    || c == '\U{2028}' || c == '\U{2029}' || c == '\U{202F}' || c == '\U{205F}'
    || c == '\U{3000}' || c == '\U{FEFF}'
  }

  predicate AllWhitespace(s: string) {
    forall i :: 0 <= i < |s| ==> IsWhitespace(s[i])
  }

  /** Neither starts nor ends with whitespace (vacuously true of ""). */
  predicate Tight(s: string) {
    s == [] || (!IsWhitespace(s[0]) && !IsWhitespace(s[|s| - 1]))
  }

  /** `s` with its trailing whitespace removed. */
  function TrimEnd(s: string): (r: string)
    ensures |r| <= |s| && r == s[..|r|]
    ensures r != [] ==> !IsWhitespace(r[|r| - 1])
  {
    if s != [] && IsWhitespace(s[|s| - 1]) then TrimEnd(s[..|s| - 1]) else s
  }

  /** JavaScript's `s.trim()`: leading whitespace is skipped, then trailing
      whitespace is cut. */
  function Trim(s: string): (r: string)
    ensures Tight(r)
  {
    if s != [] && IsWhitespace(s[0]) then Trim(s[1..])
    else
      var r := TrimEnd(s);
      assert r != [] ==> r[0] == s[0];
      r
  }

  /** What TrimEnd cuts is whitespace. */
  lemma {:induction false} TrimEndCutsWhitespace(s: string)
    ensures AllWhitespace(s[|TrimEnd(s)|..])
  {
    if s != [] && IsWhitespace(s[|s| - 1]) {
      var init := s[..|s| - 1];
      TrimEndCutsWhitespace(init);
      var n := |TrimEnd(init)|;
      assert s[n..] == init[n..] + [s[|s| - 1]];
    } else {
      assert s[|s|..] == [];
    }
  }

  lemma {:induction false} TrimStartOver(a: string, t: string)
    requires AllWhitespace(a)
    requires t == [] || !IsWhitespace(t[0])
    ensures Trim(a + t) == TrimEnd(t)
    decreases |a|
  {
    if a != [] {
      assert (a + t)[1..] == a[1..] + t;
      TrimStartOver(a[1..], t);
    } else {
      assert a + t == t;
    }
  }

  lemma {:induction false} TrimEndOver(t: string, b: string)
    requires AllWhitespace(b)
    requires t == [] || !IsWhitespace(t[|t| - 1])
    ensures TrimEnd(t + b) == t
    decreases |b|
  {
    if b != [] {
      assert (t + b)[..|t + b| - 1] == t + b[..|b| - 1];
      TrimEndOver(t, b[..|b| - 1]);
    } else {
      assert t + b == t;
    }
  }

  lemma AllWhitespaceConcat(a: string, b: string)
    requires AllWhitespace(a) && AllWhitespace(b)
    ensures AllWhitespace(a + b)
  {
    forall i | 0 <= i < |a + b| ensures IsWhitespace((a + b)[i]) {
      if i >= |a| { assert (a + b)[i] == b[i - |a|]; }
    }
  }

  /** Trim is characterised by its result: whatever is flanked by
      whitespace on both sides and is itself tight is what `trim` returns. */
  lemma TrimUnique(a: string, m: string, b: string)
    requires AllWhitespace(a) && AllWhitespace(b) && Tight(m)
    ensures Trim(a + m + b) == m
  {
    if m == [] {
      assert a + m + b == a + b + [];
      AllWhitespaceConcat(a, b);
      TrimStartOver(a + b, []);
    } else {
      assert a + m + b == a + (m + b);
      TrimStartOver(a, m + b);
      TrimEndOver(m, b);
    }
  }

  /** Trimming twice is trimming once. */
  lemma TrimIdempotent(s: string)
    ensures Trim(Trim(s)) == Trim(s)
  {
    var r := Trim(s);
    TrimUnique([], r, []);
    assert [] + r + [] == r;
  }

  /** The transcript test of the submit handler: trimming leaves nothing
      exactly when every character is whitespace. */
  lemma {:induction false} BlankIffAllWhitespace(s: string)
    ensures Trim(s) == [] <==> AllWhitespace(s)
  {
    if s != [] && IsWhitespace(s[0]) {
      BlankIffAllWhitespace(s[1..]);
      if AllWhitespace(s[1..]) {
        AllWhitespaceConcat([s[0]], s[1..]);
        assert [s[0]] + s[1..] == s;
      }
    } else {
      TrimEndCutsWhitespace(s);
      assert s[0..] == s;
    }
  }

  /** The number of commas in `s`. */
  function Commas(s: string): nat {
    if s == [] then 0 else (if s[0] == ',' then 1 else 0) + Commas(s[1..])
  }

  /** JavaScript's `s.split(',')`: the pieces between commas, in order; an
      input without a comma (the empty string included) is one piece. */
  function Split(s: string): (parts: seq<string>)
    ensures |parts| == Commas(s) + 1
  {
    if s == [] then [""]
    else
      var rest := Split(s[1..]);
      if s[0] == ',' then [""] + rest
      else [[s[0]] + rest[0]] + rest[1..]
  }

  /** No piece of a split contains the separator. */
  lemma {:induction false} SplitCommaFree(s: string)
    ensures forall k :: 0 <= k < |Split(s)| ==> ',' !in Split(s)[k]
  {
    if s != [] {
      SplitCommaFree(s[1..]);
      var rest := Split(s[1..]);
      if s[0] != ',' {
        assert ',' !in rest[0];
        assert ',' !in [s[0]] + rest[0];
        assert forall k :: 1 <= k < |Split(s)| ==> Split(s)[k] == rest[k];
      } else {
        assert forall k :: 1 <= k < |Split(s)| ==> Split(s)[k] == rest[k - 1];
      }
    }
  }

  /** `parts.join(',')`, the inverse of Split. */
  function Join(parts: seq<string>): (s: string)
    requires |parts| >= 1
  {
    if |parts| == 1 then parts[0] else parts[0] + "," + Join(parts[1..])
  }

  /** Splitting and joining back gives the transcript back. */
  lemma {:induction false} JoinSplit(s: string)
    ensures Join(Split(s)) == s
  {
    if s != [] {
      JoinSplit(s[1..]);
      var rest := Split(s[1..]);
      if s[0] == ',' {
        assert Join([""] + rest) == "" + "," + Join(rest);
        assert s == [s[0]] + s[1..];
      } else {
        var parts := [[s[0]] + rest[0]] + rest[1..];
        if |rest| == 1 {
          assert s == [s[0]] + rest[0];
        } else {
          assert parts[1..] == rest[1..];
          assert Join(rest) == rest[0] + "," + Join(rest[1..]);
          assert s == [s[0]] + s[1..];
        }
      }
    }
  }

  /** Joining comma-free pieces and splitting again gives the pieces back. */
  lemma {:induction false} SplitJoin(parts: seq<string>)
    requires |parts| >= 1
    requires forall k :: 0 <= k < |parts| ==> ',' !in parts[k]
    ensures Split(Join(parts)) == parts
    decreases |parts|, |parts[0]|
  {
    var p := parts[0];
    if p == [] {
      if |parts| > 1 {
        assert Join(parts) == [','] + Join(parts[1..]);
        SplitJoin(parts[1..]);
      }
    } else {
      assert p[0] != ',' by { assert p[0] in p; }
      var tail := [p[1..]] + parts[1..];
      assert tail[1..] == parts[1..];
      assert forall k :: 1 <= k < |tail| ==> tail[k] == parts[k];
      assert ',' !in p[1..] by {
        forall c | c in p[1..] ensures c != ',' { assert c in p; }
      }
      SplitJoin(tail);
      var s := Join(parts);
      if |parts| == 1 {
        assert s == [p[0]] + p[1..];
      } else {
        assert s == [p[0]] + Join(tail);
      }
      assert s[0] == p[0] && s[1..] == Join(tail);
      assert [p[0]] + p[1..] == p;
      assert [p] + parts[1..] == parts;
    }
  }

  lemma {:induction false} JoinAppend(p: seq<string>, q: seq<string>)
    requires |p| >= 1 && |q| >= 1
    ensures Join(p + q) == Join(p) + "," + Join(q)
    decreases |p|
  {
    if |p| > 1 {
      assert (p + q)[1..] == p[1..] + q;
      JoinAppend(p[1..], q);
    } else {
      assert (p + q)[1..] == q;
    }
  }

  /** Splitting at one comma splits each side on its own. */
  lemma SplitAtComma(a: string, b: string)
    ensures Split(a + "," + b) == Split(a) + Split(b)
  {
    var p, q := Split(a), Split(b);
    SplitCommaFree(a);
    SplitCommaFree(b);
    JoinSplit(a);
    JoinSplit(b);
    JoinAppend(p, q);
    assert forall k :: 0 <= k < |p + q| ==> ',' !in (p + q)[k] by {
      forall k | 0 <= k < |p + q| ensures ',' !in (p + q)[k] {
        if k >= |p| { assert (p + q)[k] == q[k - |p|]; }
      }
    }
    SplitJoin(p + q);
  }

  /** A piece without commas is one piece. */
  lemma SplitNoComma(s: string)
    requires ',' !in s
    ensures Split(s) == [s]
  {
    SplitJoin([s]);
  }

  /** A trimmed, non-empty piece with no comma: what an order item looks like. */
  predicate IsItem(s: string) {
    s != [] && Tight(s) && ',' !in s
  }

  /** Trimming never brings in a comma. */
  lemma {:induction false} TrimKeepsCommaFree(s: string)
    requires ',' !in s
    ensures ',' !in Trim(s)
  {
    if s != [] && IsWhitespace(s[0]) {
      assert forall c :: c in s[1..] ==> c in s;
      TrimKeepsCommaFree(s[1..]);
    } else {
      var r := TrimEnd(s);
      assert forall c :: c in r ==> c in s;
    }
  }

  /** `.map(item => item.trim())`. */
  function TrimAll(parts: seq<string>): (trimmed: seq<string>)
    ensures |trimmed| == |parts|
    ensures forall k :: 0 <= k < |parts| ==> trimmed[k] == Trim(parts[k])
  {
    seq(|parts|, k requires 0 <= k < |parts| => Trim(parts[k]))
  }

  /** `.filter(Boolean)` on strings: the non-empty ones, in order. */
  function DropEmpty(xs: seq<string>): (kept: seq<string>)
    ensures |kept| <= |xs|
  {
    if xs == [] then []
    else (if xs[0] == [] then [] else [xs[0]]) + DropEmpty(xs[1..])
  }

  /** Filtering keeps only non-empty elements of its input. */
  lemma {:induction false} DropEmptyKeeps(xs: seq<string>)
    ensures forall k :: 0 <= k < |DropEmpty(xs)| ==> DropEmpty(xs)[k] != [] && DropEmpty(xs)[k] in xs
  {
    if xs != [] {
      DropEmptyKeeps(xs[1..]);
      var rest := DropEmpty(xs[1..]);
      assert forall x :: x in rest ==> x in xs;
    }
  }

  /** `transcript.split(',').map(item => item.trim()).filter(Boolean)`. */
  function ParseItems(transcript: string): (items: seq<string>)
    ensures |items| <= Commas(transcript) + 1
  {
    DropEmpty(TrimAll(Split(transcript)))
  }

  /** The order items of a transcript: each is non-empty, trimmed and
      comma-free, and is the trim of one of its comma-separated pieces. */
  lemma ParseItemsWellFormed(transcript: string)
    ensures var items := ParseItems(transcript);
      forall k :: 0 <= k < |items| ==> IsItem(items[k]) && items[k] in TrimAll(Split(transcript))
  {
    var parts := Split(transcript);
    var trimmed := TrimAll(parts);
    SplitCommaFree(transcript);
    DropEmptyKeeps(trimmed);
    forall k | 0 <= k < |trimmed| ensures ',' !in trimmed[k] {
      TrimKeepsCommaFree(parts[k]);
    }
  }

  /** Filtering keeps the order: filtering a concatenation is concatenating
      the filtered halves. */
  lemma {:induction false} DropEmptyAppend(p: seq<string>, q: seq<string>)
    ensures DropEmpty(p + q) == DropEmpty(p) + DropEmpty(q)
    decreases |p|
  {
    if p == [] {
      assert p + q == q;
    } else {
      assert (p + q)[0] == p[0] && (p + q)[1..] == p[1..] + q;
      DropEmptyAppend(p[1..], q);
      var head := if p[0] == [] then [] else [p[0]];
      assert head + (DropEmpty(p[1..]) + DropEmpty(q)) == (head + DropEmpty(p[1..])) + DropEmpty(q);
    }
  }

  /** Filtering drops exactly the empty strings: it is the identity on a
      sequence without one, and removes a lone empty string. */
  lemma {:induction false} DropEmptyKeepsNonEmpty(xs: seq<string>)
    ensures (forall k :: 0 <= k < |xs| ==> xs[k] != []) ==> DropEmpty(xs) == xs
    ensures DropEmpty([""]) == []
  {
    if xs != [] {
      DropEmptyKeepsNonEmpty(xs[1..]);
      assert xs == [xs[0]] + xs[1..];
    }
    assert [""][1..] == [];
  }

  /** Items survive a round trip: joining comma-free, non-blank pieces with
      commas and parsing the result gives the pieces back, trimmed, in
      order. "latte, croissant, latte" is the pieces "latte", " croissant"
      and " latte" joined. */
  lemma ParseOfJoin(pieces: seq<string>)
    requires |pieces| >= 1
    requires forall k :: 0 <= k < |pieces| ==> ',' !in pieces[k] && Trim(pieces[k]) != []
    ensures ParseItems(Join(pieces)) == TrimAll(pieces)
  {
    SplitJoin(pieces);
    DropEmptyKeepsNonEmpty(TrimAll(pieces));
  }

  /** Filtering leaves nothing exactly when every element is empty. */
  lemma {:induction false} DropEmptyNoneIff(xs: seq<string>)
    ensures DropEmpty(xs) == [] <==> forall k :: 0 <= k < |xs| ==> xs[k] == []
  {
    if xs != [] {
      DropEmptyNoneIff(xs[1..]);
      assert forall k :: 1 <= k < |xs| ==> xs[k] == xs[1..][k - 1];
    }
  }

  /** A transcript yields no items exactly when every comma-separated piece
      of it trims to nothing. */
  lemma {:induction false} NoItemsIff(transcript: string)
    ensures ParseItems(transcript) == [] <==>
      forall k :: 0 <= k < |Split(transcript)| ==> Trim(Split(transcript)[k]) == []
  {
    var parts := Split(transcript);
    var trimmed := TrimAll(parts);
    assert ParseItems(transcript) == DropEmpty(trimmed);
    DropEmptyNoneIff(trimmed);
    assert |trimmed| == |parts|;
    assert forall k :: 0 <= k < |parts| ==> trimmed[k] == Trim(parts[k]);
    if ParseItems(transcript) == [] {
      assert forall k :: 0 <= k < |parts| ==> Trim(parts[k]) == [];
    } else {
      var k :| 0 <= k < |trimmed| && trimmed[k] != [];
      assert Trim(parts[k]) != [];
      assert Trim(Split(transcript)[k]) != [];
      assert !(forall j :: 0 <= j < |Split(transcript)| ==> Trim(Split(transcript)[j]) == []);
    }
  }

  /** Every piece of a string of commas is empty. */
  lemma {:induction false} SplitOfCommas(s: string)
    requires forall i :: 0 <= i < |s| ==> s[i] == ','
    ensures forall k :: 0 <= k < |Split(s)| ==> Split(s)[k] == []
  {
    if s != [] {
      SplitOfCommas(s[1..]);
      var rest := Split(s[1..]);
      assert Split(s) == [""] + rest;
    }
  }

  /** A transcript of commas alone is not blank, so the handler goes on,
      yet it yields no items. */
  lemma CommasOnlyGiveNoItems(transcript: string)
    requires transcript != []
    requires forall i :: 0 <= i < |transcript| ==> transcript[i] == ','
    ensures !AllWhitespace(transcript) && ParseItems(transcript) == []
  {
    assert !IsWhitespace(transcript[0]);
    SplitOfCommas(transcript);
    NoItemsIff(transcript);
  }
}
