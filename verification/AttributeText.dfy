/**
 Attributes in a line of text: `TryReadAttrDouble` and `ReplaceAttrDouble` of
 scratch/nr-x2-handover-measures-cho.cc, which search the line for the attribute's name and quotation marks.
 */
module AttributeText {
  import opened Sequences

  import opened DecimalText

  predicate At(s: string, token: string, i: nat) {
    i + |token| <= |s| && s[i..i + |token|] == token
  }

  /** The first place at or after `start` where the token is. */
  function Find(s: string, token: string, start: nat): (r: Option<nat>)
    ensures r.Some? ==> start <= r.value && At(s, token, r.value)
    ensures forall i: nat :: start <= i < (if r.Some? then r.value else |s| + 1) ==> !At(s, token, i)
    decreases |s| - start
  {
    if start + |token| > |s| then None
    else if At(s, token, start) then Some(start)
    else Find(s, token, start + 1)
  }

  function Token(attr: string): string {
    attr + "=\""
  }

  /** Where the value of an attribute is: it starts behind the opening quotation mark, and a closing one is at `end`. */
  datatype Span = Span(start: nat, end: nat)

  function Locate(line: string, attr: string): (r: Option<Span>)
    ensures r.Some? ==> r.value.start <= r.value.end < |line|
  {
    var start := Find(line, Token(attr), 0);
    if start.None? then None
    else
      var valueStart := start.value + |Token(attr)|;
      var valueEnd := Find(line, "\"", valueStart);
      if valueEnd.None? then None else Some(Span(valueStart, valueEnd.value))
  }

  function TryReadAttrDouble(line: string, attr: string): Option<real> {
    var span := Locate(line, attr);
    if span.None? then None else Parse(line[span.value.start..span.value.end])
  }

  function ReplaceAttrDouble(line: string, attr: string, value: real): string {
    var span := Locate(line, attr);
    if span.None? then line else Replace(line, span.value, Print(value))
  }

  function Replace(line: string, span: Span, text: string): string
    requires span.start <= span.end <= |line|
  {
    line[..span.start] + text + line[span.end..]
  }

  // ----- Where an attribute is found -----

  predicate QuoteAt(s: string, i: nat) {
    i < |s| && s[i] == '\"'
  }

  /** The value in the span is between two quotation marks and holds none. */
  ghost predicate Quoted(line: string, span: Span) {
    && 0 < span.start <= span.end && QuoteAt(line, span.start - 1) && QuoteAt(line, span.end)
    && forall i: nat :: span.start <= i < span.end ==> !QuoteAt(line, i)
  }

  /** The span is that of the first occurrence of the attribute. */
  ghost predicate IsFirst(line: string, attr: string, span: Span) {
    && Quoted(line, span)
    && |Token(attr)| <= span.start
    && At(line, Token(attr), span.start - |Token(attr)|)
    && forall i: nat :: i < span.start - |Token(attr)| ==> !At(line, Token(attr), i)
  }

  lemma QuoteIsToken(s: string, i: nat)
    ensures At(s, "\"", i) <==> QuoteAt(s, i)
  {
  }

  lemma TokenEndsInQuote(line: string, attr: string, i: nat)
    requires At(line, Token(attr), i)
    ensures QuoteAt(line, i + |Token(attr)| - 1) && line[i + |Token(attr)| - 2] == '='
  {
    var t := Token(attr);
    assert line[i..i + |t|][|t| - 1] == t[|t| - 1] && line[i..i + |t|][|t| - 2] == t[|t| - 2];
  }

  lemma FirstQuote(line: string, from: nat)
    ensures var r := Find(line, "\"", from);
      && (r.Some? ==> from <= r.value && QuoteAt(line, r.value))
      && forall i: nat :: from <= i && QuoteAt(line, i) ==> r.Some? && r.value <= i
  {
    var r := Find(line, "\"", from);
    forall i: nat ensures At(line, "\"", i) <==> QuoteAt(line, i) {
      QuoteIsToken(line, i);
    }
    hide At;
    forall i: nat | from <= i && QuoteAt(line, i) ensures r.Some? && r.value <= i {
      assert At(line, "\"", i) && i < |line| + 1;
    }
  }

  lemma TokenIsFound(line: string, token: string, i: nat)
    requires At(line, token, i)
    ensures Find(line, token, 0).Some? && Find(line, token, 0).value <= i
  {
    assert i < |line| + 1;
  }

  lemma LocatedFirst(line: string, attr: string)
    requires Locate(line, attr).Some?
    ensures IsFirst(line, attr, Locate(line, attr).value)
  {
    var t := Token(attr);
    var start := Find(line, t, 0);
    TokenEndsInQuote(line, attr, start.value);
    FirstQuote(line, start.value + |t|);
    hide At, QuoteAt;
  }

  lemma LocatedBefore(line: string, attr: string, i: nat, q: nat)
    requires At(line, Token(attr), i) && i + |Token(attr)| <= q && QuoteAt(line, q)
    ensures Locate(line, attr).Some?
  {
    TokenIsFound(line, Token(attr), i);
    FirstQuote(line, Find(line, Token(attr), 0).value + |Token(attr)|);
  }

  /** An attribute is located if and only if it occurs before a quotation mark, and then its first occurrence is. */
  lemma Located(line: string, attr: string)
    ensures Locate(line, attr).Some? ==> IsFirst(line, attr, Locate(line, attr).value)
    ensures forall i: nat, q: nat ::
      At(line, Token(attr), i) && i + |Token(attr)| <= q && QuoteAt(line, q) ==> Locate(line, attr).Some?
  {
    hide *;
    if Locate(line, attr).Some? {
      LocatedFirst(line, attr);
    }
    forall i: nat, q: nat | At(line, Token(attr), i) && i + |Token(attr)| <= q && QuoteAt(line, q)
      ensures Locate(line, attr).Some?
    {
      LocatedBefore(line, attr, i, q);
    }
  }

  lemma LocatedIsUnique(line: string, attr: string, span: Span)
    requires IsFirst(line, attr, span)
    ensures Locate(line, attr) == Some(span)
  {
    Located(line, attr);
    var i: nat := span.start - |Token(attr)|;
    assert At(line, Token(attr), i) && i + |Token(attr)| <= span.end && QuoteAt(line, span.end);
    var other := Locate(line, attr).value;
    var j: nat := other.start - |Token(attr)|;
    assert !(i < j) && !(j < i);
    assert QuoteAt(line, other.end);
  }

  // ----- Replacing a value -----

  /** Text that neither ends an attribute's value nor looks like the name of another. */
  predicate Plain(text: string) {
    text != "" && forall c :: c in text ==> c != '\"' && c != '='
  }

  lemma PrintedIsPlain(value: real)
    ensures Plain(Print(value))
  {
    PrintIsPlain(value);
  }

  /** The span of the new text. */
  function NewSpan(span: Span, text: string): Span {
    Span(span.start, span.start + |text|)
  }

  lemma ReplacedIsQuoted(line: string, span: Span, text: string)
    requires Quoted(line, span) && Plain(text)
    ensures Quoted(Replace(line, span, text), NewSpan(span, text))
  {
    var l := Replace(line, span, text);
    forall i: nat | span.start <= i < span.start + |text| ensures !QuoteAt(l, i) {
      assert l[i] == text[i - span.start] && text[i - span.start] in text;
    }
  }

  /** The occurrences in front of the value stay where they are. */
  lemma OccurrenceBefore(line: string, span: Span, text: string, token: string, i: nat)
    requires span.start <= span.end <= |line| && i + |token| <= span.start
    ensures At(Replace(line, span, text), token, i) <==> At(line, token, i)
  {
    var l := Replace(line, span, text);
    assert l[i..i + |token|] == line[i..i + |token|];
  }

  /** Those behind it move with the text behind it. */
  lemma OccurrenceBehind(line: string, span: Span, text: string, token: string, i: nat)
    requires span.start <= span.end <= i
    requires span.end <= |line|
    ensures At(Replace(line, span, text), token, i - span.end + span.start + |text|) <==> At(line, token, i)
  {
    var l := Replace(line, span, text);
    var j: nat := i - span.end + span.start + |text|;
    if i + |token| <= |line| {
      assert l[j..j + |token|] == line[i..i + |token|];
    }
  }

  /** An occurrence ends at the opening mark or in front of it, or at the closing one, or begins behind that. */
  lemma OccurrenceAroundValue(line: string, span: Span, attr: string, i: nat)
    requires Quoted(line, span) && At(line, Token(attr), i)
    requires '\"' !in attr
    ensures i + |Token(attr)| <= span.start || span.end < i
         || (i + |Token(attr)| == span.end + 1 && span.start <= i && line[span.end - 1] == '=')
  {
    var t := Token(attr);
    TokenEndsInQuote(line, attr, i);
    assert forall k: nat :: i <= k < i + |t| - 1 ==> !QuoteAt(line, k) by {
      forall k: nat | i <= k < i + |t| - 1 ensures !QuoteAt(line, k) {
        assert line[k] == line[i..i + |t|][k - i] == t[k - i];
      }
    }
  }

  /** Only the value changes. Reading the attribute then gives what was written, to three decimals. */
  lemma ReadAfterReplace(line: string, attr: string, value: real)
    requires Locate(line, attr).Some?
    ensures TryReadAttrDouble(ReplaceAttrDouble(line, attr, value), attr) == Some(Rounded(value))
    ensures Locate(ReplaceAttrDouble(line, attr, value), attr) == Some(NewSpan(Locate(line, attr).value, Print(value)))
    ensures var l, at := ReplaceAttrDouble(line, attr, value), Locate(line, attr).value;
      var to := NewSpan(at, Print(value));
      && |l| == |line| - (at.end - at.start) + (to.end - to.start)
      && l[..to.start] == line[..at.start] && l[to.end..] == line[at.end..]
  {
    hide Print, Parse, Locate, At;
    var span, text := Locate(line, attr).value, Print(value);
    var l, t := Replace(line, span, text), Token(attr);
    Located(line, attr);
    PrintedIsPlain(value);
    ReplacedIsQuoted(line, span, text);
    forall i: nat | i + |t| <= span.start ensures At(l, t, i) <==> At(line, t, i) {
      OccurrenceBefore(line, span, text, t, i);
    }
    LocatedIsUnique(l, attr, NewSpan(span, text));
    assert l[span.start..span.start + |text|] == text;
    ParseUndoesPrint(value);
  }

  // ----- The other attribute -----

  predicate EndsWith(s: string, suffix: string) {
    |suffix| <= |s| && s[|s| - |suffix|..] == suffix
  }

  /** Names like the two coordinates of a position: neither is the end of the other. */
  predicate Apart(a: string, b: string) {
    && '\"' !in a && '\"' !in b && !EndsWith(a, b) && !EndsWith(b, a)
  }

  /** Where a span comes to lie when the value in `at` is replaced by a text. */
  function Moved(span: Span, at: Span, text: string): Span
    requires at.start <= at.end && span.start <= span.end
  {
    if span.start <= at.end then span
    else Span(span.start - at.end + at.start + |text|, span.end - at.end + at.start + |text|)
  }

  lemma LongerEndsWithShorter(line: string, a: string, b: string, end: nat)
    requires |Token(a)| <= |Token(b)| <= end
    requires At(line, Token(a), end - |Token(a)|) && At(line, Token(b), end - |Token(b)|)
    ensures EndsWith(b, a)
  {
    var ta, tb := Token(a), Token(b);
    var d := |b| - |a|;
    forall k | 0 <= k < |a| ensures b[d..][k] == a[k] {
      assert line[end - |tb|..end][d + k] == tb[d + k] == b[d + k];
      assert line[end - |ta|..end][k] == ta[k] == a[k];
    }
  }

  /** Another attribute is in front of a value, right behind it, or further behind. */
  lemma OtherAroundValue(line: string, a: string, b: string, at: Span, span: Span)
    requires Apart(a, b) && IsFirst(line, a, at) && IsFirst(line, b, span)
    ensures span.end < at.start || span.start == at.end + 1 || at.end < span.start - |Token(b)|
  {
    hide At, EndsWith;
    OccurrenceAroundValue(line, at, b, span.start - |Token(b)|);
    if span.start == at.start {
      if |Token(a)| <= |Token(b)| {
        LongerEndsWithShorter(line, a, b, at.start);
      } else {
        LongerEndsWithShorter(line, b, a, at.start);
      }
      assert false;
    } else if span.start < at.start {
      QuotedEndsBefore(line, span, at.start - 1);
    }
  }

  lemma QuotedEndsBefore(line: string, span: Span, quote: nat)
    requires Quoted(line, span) && span.start <= quote && QuoteAt(line, quote)
    ensures span.end <= quote
  {
  }

  lemma OtherInFront(line: string, b: string, at: Span, span: Span, text: string)
    requires Quoted(line, at) && IsFirst(line, b, span) && span.end < at.start
    ensures IsFirst(Replace(line, at, text), b, span)
  {
    hide At;
    var l, t := Replace(line, at, text), Token(b);
    forall i: nat | i + |t| <= span.start ensures At(l, t, i) <==> At(line, t, i) {
      OccurrenceBefore(line, at, text, t, i);
    }
    assert Quoted(l, span) by {
      assert l[..at.start] == line[..at.start];
      forall i: nat | i < at.start ensures QuoteAt(l, i) <==> QuoteAt(line, i) {
        assert l[..at.start][i] == line[..at.start][i];
      }
    }
  }

  /** An occurrence behind the replacement, or in front of it, comes from one in the line. */
  lemma OccurrenceComesFrom(line: string, b: string, at: Span, text: string, i: nat) returns (j: nat)
    requires Quoted(line, at) && Plain(text) && '\"' !in b
    requires At(Replace(line, at, text), Token(b), i)
    ensures At(line, Token(b), j)
    ensures (i == j && i + |Token(b)| <= at.start) || (at.end < j && i == j - at.end + at.start + |text|)
  {
    hide At;
    var l := Replace(line, at, text);
    ReplacedIsQuoted(line, at, text);
    OccurrenceAroundValue(l, NewSpan(at, text), b, i);
    if i + |Token(b)| <= at.start {
      j := i;
      OccurrenceBefore(line, at, text, Token(b), i);
    } else {
      assert l[at.start + |text| - 1] == text[|text| - 1] && text[|text| - 1] in text;
      j := i - |text| - at.start + at.end;
      OccurrenceBehind(line, at, text, Token(b), j);
    }
  }

  lemma OtherBehind(line: string, b: string, at: Span, span: Span, text: string)
    requires Quoted(line, at) && IsFirst(line, b, span) && Plain(text) && '\"' !in b
    requires at.end < span.start - |Token(b)|
    ensures IsFirst(Replace(line, at, text), b, Moved(span, at, text))
  {
    hide At;
    var l, t, s := Replace(line, at, text), Token(b), Moved(span, at, text);
    OccurrenceBehind(line, at, text, t, span.start - |t|);
    forall i: nat | i < s.start - |t| ensures !At(l, t, i) {
      if At(l, t, i) {
        var j := OccurrenceComesFrom(line, b, at, text, i);
      }
    }
    assert Quoted(l, s) by {
      forall i: nat | at.start + |text| <= i
        ensures QuoteAt(l, i) <==> QuoteAt(line, i - |text| - at.start + at.end)
      {
        if i < |l| {
          assert l[i] == line[at.end..][i - |text| - at.start];
        }
      }
    }
  }

  /** Replacing a value brings no other attribute into being, nor one right behind the value. */
  lemma NothingAppears(line: string, b: string, at: Span, text: string)
    requires Quoted(line, at) && Plain(text) && '\"' !in b
    requires Locate(Replace(line, at, text), b).Some?
    ensures Locate(line, b).Some?
    ensures Locate(Replace(line, at, text), b).value.start != at.start + |text| + 1
  {
    hide At, Locate;
    var l := Replace(line, at, text);
    Located(line, b);
    Located(l, b);
    var span := Locate(l, b).value;
    var i: nat := span.start - |Token(b)|;
    var j := OccurrenceComesFrom(line, b, at, text, i);
    if i == j && i + |Token(b)| <= at.start {
      assert QuoteAt(line, at.end);
    } else {
      var q: nat := span.end - |text| - at.start + at.end;
      assert l[span.end] == line[at.end..][span.end - |text| - at.start];
      assert QuoteAt(line, q);
    }
  }

  /** The other's value begins at the closing quotation mark of this one's, which thus ends in the other's name. */
  predicate Swallows(line: string, a: string, b: string) {
    Locate(line, a).Some? && Locate(line, b).Some? && Locate(line, b).value.start == Locate(line, a).value.end + 1
  }

  function MovedOption(span: Option<Span>, at: Span, text: string): Option<Span>
    requires at.start <= at.end && (span.Some? ==> span.value.start <= span.value.end)
  {
    if span.None? then None else Some(Moved(span.value, at, text))
  }

  /**
   After one attribute is written, the other is found where it was, moved with the text around it, if and only
   if its value did not begin at the closing quotation mark of the first.
   */
  lemma OtherStaysInPlace(line: string, a: string, b: string, value: real)
    requires Apart(a, b) && Locate(line, a).Some?
    ensures Locate(ReplaceAttrDouble(line, a, value), b)
         == MovedOption(Locate(line, b), Locate(line, a).value, Print(value))
       <==> !Swallows(line, a, b)
  {
    hide Print, Locate, At, Quoted, Plain, EndsWith;
    var at, text := Locate(line, a).value, Print(value);
    var l := Replace(line, at, text);
    PrintedIsPlain(value);
    Located(line, a);
    Located(line, b);
    if Locate(l, b).Some? {
      NothingAppears(line, b, at, text);
    }
    if Locate(line, b).Some? {
      var span := Locate(line, b).value;
      OtherAroundValue(line, a, b, at, span);
      if span.end < at.start {
        OtherInFront(line, b, at, span, text);
        LocatedIsUnique(l, b, span);
      } else if at.end < span.start - |Token(b)| {
        OtherBehind(line, b, at, span, text);
        LocatedIsUnique(l, b, Moved(span, at, text));
      }
    }
  }

  lemma SpanMoves(line: string, at: Span, span: Span, text: string)
    requires at.start <= at.end < |line| && span.start <= span.end < |line|
    requires span.end < at.start || at.end < span.start
    ensures var l, s := Replace(line, at, text), Moved(span, at, text);
      s.start <= s.end < |l| && l[s.start..s.end] == line[span.start..span.end]
  {
  }

  /** And then it reads the same. */
  lemma OtherReadsTheSame(line: string, a: string, b: string, value: real)
    requires Apart(a, b) && !Swallows(line, a, b)
    ensures TryReadAttrDouble(ReplaceAttrDouble(line, a, value), b) == TryReadAttrDouble(line, b)
  {
    if Locate(line, a).Some? {
      hide Print, Locate, Parse, At, Quoted, EndsWith;
      OtherStaysInPlace(line, a, b, value);
      if Locate(line, b).Some? {
        var at, span := Locate(line, a).value, Locate(line, b).value;
        Located(line, a);
        Located(line, b);
        OtherAroundValue(line, a, b, at, span);
        hide IsFirst, Replace, Moved;
        SpanMoves(line, at, span, Print(value));
      }
    }
  }

  function Shifted(span: Option<Span>, offset: nat): Option<Span> {
    if span.None? then None else Some(Span(span.value.start + offset, span.value.end + offset))
  }

  lemma ShiftedOccurrence(front: string, rest: string, token: string, i: nat)
    requires |front| <= i
    ensures At(front + rest, token, i) <==> At(rest, token, i - |front|)
  {
    if i + |token| <= |front + rest| {
      assert (front + rest)[i..i + |token|] == rest[i - |front|..i - |front| + |token|];
    }
  }

  lemma StillInRest(front: string, rest: string, attr: string)
    requires forall i: nat :: At(front + rest, Token(attr), i) ==> |front| <= i
    requires Locate(front + rest, attr).Some?
    ensures Locate(rest, attr).Some?
  {
    hide At, Locate;
    var l, t := front + rest, Token(attr);
    Located(rest, attr);
    Located(l, attr);
    var span := Locate(l, attr).value;
    var i: nat := span.start - |t|;
    ShiftedOccurrence(front, rest, t, i);
    assert At(rest, t, i - |front|) && QuoteAt(rest, span.end - |front|);
  }

  /** An attribute that does not occur in the front of a text is found where it is in the rest. */
  lemma FoundInRest(front: string, rest: string, attr: string)
    requires forall i: nat :: At(front + rest, Token(attr), i) ==> |front| <= i
    ensures Locate(front + rest, attr) == Shifted(Locate(rest, attr), |front|)
    ensures TryReadAttrDouble(front + rest, attr) == TryReadAttrDouble(rest, attr)
  {
    hide At, Locate, Parse;
    var l, t := front + rest, Token(attr);
    Located(rest, attr);
    Located(l, attr);
    forall i: nat | |front| <= i ensures At(l, t, i) <==> At(rest, t, i - |front|) {
      ShiftedOccurrence(front, rest, t, i);
    }
    if Locate(rest, attr).Some? {
      var span := Locate(rest, attr).value;
      var moved := Span(span.start + |front|, span.end + |front|);
      assert At(l, t, moved.start - |t|);
      forall i: nat | |front| <= i ensures QuoteAt(l, i) <==> QuoteAt(rest, i - |front|) {
      }
      LocatedIsUnique(l, attr, moved);
      assert l[moved.start..moved.end] == rest[span.start..span.end];
    } else if Locate(l, attr).Some? {
      StillInRest(front, rest, attr);
    }
  }

  /** A swallowed attribute is lost in front of the closing quotation mark, and is looked for behind it. */
  lemma SwallowedOccurrences(line: string, a: string, b: string, text: string, i: nat)
    requires Apart(a, b) && Swallows(line, a, b) && Plain(text)
    requires At(Replace(line, Locate(line, a).value, text), Token(b), i)
    ensures Locate(line, a).value.start + |text| <= i
  {
    hide At, Locate, Plain, EndsWith;
    var at, span := Locate(line, a).value, Locate(line, b).value;
    Located(line, a);
    Located(line, b);
    OccurrenceAroundValue(line, at, b, span.start - |Token(b)|);
    var j := OccurrenceComesFrom(line, b, at, text, i);
  }

  /** What is written does not matter for a swallowed attribute. */
  lemma SwallowedIsFoundBehind(line: string, a: string, b: string, value: real)
    requires Apart(a, b) && Swallows(line, a, b)
    ensures var at, l := Locate(line, a).value, ReplaceAttrDouble(line, a, value);
      && Locate(l, b) == Shifted(Locate(line[at.end..], b), at.start + |Print(value)|)
      && TryReadAttrDouble(l, b) == TryReadAttrDouble(line[at.end..], b)
  {
    hide At, Locate, Print, Parse, EndsWith, Swallows, TryReadAttrDouble;
    assert Locate(line, a).Some? by {
      SwallowerIsLocated(line, a, b);
    }
    var at, text := Locate(line, a).value, Print(value);
    var front, rest := line[..at.start] + text, line[at.end..];
    PrintedIsPlain(value);
    assert Replace(line, at, text) == front + rest;
    forall i: nat | At(front + rest, Token(b), i) ensures |front| <= i {
      SwallowedOccurrences(line, a, b, text, i);
    }
    FoundInRest(front, rest, b);
  }

  lemma SwallowerIsLocated(line: string, a: string, b: string)
    requires Swallows(line, a, b)
    ensures Locate(line, a).Some? && Locate(line, b).Some?
  {
  }

  /**
   The other attribute reads as before if and only if it is not swallowed, or what is found behind the closing
   quotation mark reads the same.
   */
  lemma OtherReadsTheSameIff(line: string, a: string, b: string, value: real)
    requires Apart(a, b)
    ensures TryReadAttrDouble(ReplaceAttrDouble(line, a, value), b) == TryReadAttrDouble(line, b)
      <==> (Swallows(line, a, b) ==>
              TryReadAttrDouble(line[Locate(line, a).value.end..], b) == TryReadAttrDouble(line, b))
  {
    if Swallows(line, a, b) {
      SwallowedIsFoundBehind(line, a, b, value);
    } else {
      OtherReadsTheSame(line, a, b, value);
    }
  }

  /** Where the other attribute will be found after the first one is written, in places of the line before. */
  function OtherPlace(line: string, a: string, b: string): Option<Span> {
    if Swallows(line, a, b) then
      Shifted(Locate(line[Locate(line, a).value.end..], b), Locate(line, a).value.end)
    else Locate(line, b)
  }

  ghost predicate IsApart(line: string, at: Span, other: Span) {
    && 0 < at.start && Quoted(line, at) && Quoted(line, other)
    && (other.end < at.start || at.end + 1 < other.start)
  }

  lemma OtherIsApart(line: string, a: string, b: string)
    requires Apart(a, b) && Locate(line, a).Some? && OtherPlace(line, a, b).Some?
    ensures IsApart(line, Locate(line, a).value, OtherPlace(line, a, b).value)
  {
    hide At, Locate, EndsWith, Quoted;
    var at := Locate(line, a).value;
    Located(line, a);
    Located(line, b);
    if Swallows(line, a, b) {
      var rest := line[at.end..];
      assert QuoteAt(rest, 0) by {
        ValueIsClosed(line, at);
      }
      Located(rest, b);
      BehindFirst(rest, b, Locate(rest, b).value);
      QuotedInRest(line, at.end, Locate(rest, b).value);
    } else {
      OtherAroundValue(line, a, b, at, Locate(line, b).value);
    }
  }

  lemma ValueIsClosed(line: string, at: Span)
    requires Quoted(line, at)
    ensures 0 < at.start && at.end < |line| && QuoteAt(line[at.end..], 0)
  {
  }

  lemma MovedFromBehind(span: Span, at: Span, text: string)
    requires at.start <= at.end && 0 < span.start <= span.end
    ensures Moved(Span(span.start + at.end, span.end + at.end), at, text)
         == Span(span.start + at.start + |text|, span.end + at.start + |text|)
  {
  }

  lemma OtherIsFound(line: string, a: string, b: string, value: real)
    requires Apart(a, b) && Locate(line, a).Some?
    ensures Locate(ReplaceAttrDouble(line, a, value), b)
         == MovedOption(OtherPlace(line, a, b), Locate(line, a).value, Print(value))
  {
    hide At, Locate, Print, EndsWith, Quoted, ReplaceAttrDouble, Moved, Apart, TryReadAttrDouble;
    if Swallows(line, a, b) {
      SwallowedIsFoundBehind(line, a, b, value);
      var at := Locate(line, a).value;
      var behind := Locate(line[at.end..], b);
      if behind.Some? {
        Located(line[at.end..], b);
        MovedFromBehind(behind.value, at, Print(value));
      }
    } else {
      OtherStaysInPlace(line, a, b, value);
    }
  }

  /** A value that is found in a text that begins with a quotation mark is not right behind that. */
  lemma BehindFirst(rest: string, b: string, span: Span)
    requires IsFirst(rest, b, span) && QuoteAt(rest, 0) && '\"' !in b
    ensures span.start > 1
  {
  }

  lemma QuotedInRest(line: string, from: nat, span: Span)
    requires from <= |line| && Quoted(line[from..], span)
    ensures Quoted(line, Span(span.start + from, span.end + from))
  {
    forall i: nat | from <= i ensures QuoteAt(line, i) <==> QuoteAt(line[from..], i - from) {
    }
  }

  /** Writing one attribute does not make the other one swallow it. */
  lemma NotSwallowedBack(line: string, a: string, b: string, value: real)
    requires Apart(a, b) && !Swallows(line, a, b) && !Swallows(line, b, a)
    ensures !Swallows(ReplaceAttrDouble(line, a, value), b, a)
  {
    hide Print, Locate, Parse, At, Quoted, EndsWith;
    if Locate(line, a).Some? {
      OtherStaysInPlace(line, a, b, value);
      ReadAfterReplace(line, a, value);
      if Locate(line, b).Some? {
        Located(line, a);
        Located(line, b);
        OtherAroundValue(line, a, b, Locate(line, a).value, Locate(line, b).value);
      }
    }
  }

  // ----- Writing both attributes -----

  lemma PlainTextQuotes(text: string, rest: string)
    requires Plain(text) && QuoteAt(rest, 0)
    ensures var l := "\"" + text + rest;
      && QuoteAt(l, 1 + |text|) && l[|text|] != '='
      && forall k: nat :: 0 < k <= |text| ==> !QuoteAt(l, k)
  {
    var l := "\"" + text + rest;
    forall k: nat | 0 < k <= |text| ensures l[k] in text {
      assert l[k] == text[k - 1];
    }
    assert text[|text| - 1] in text;
  }

  lemma TokenHasOneQuote(line: string, attr: string, i: nat)
    requires At(line, Token(attr), i) && '\"' !in attr
    ensures forall k: nat :: i <= k < i + |attr| + 1 ==> !QuoteAt(line, k)
  {
    forall k: nat | i <= k < i + |attr| + 1 ensures !QuoteAt(line, k) {
      LetterOf(line, Token(attr), i, k - i);
    }
  }

  /** No attribute occurs before the end of a quoted text that is plain. */
  lemma NothingInPlainText(text: string, rest: string, attr: string, i: nat)
    requires Plain(text) && QuoteAt(rest, 0) && '\"' !in attr
    requires At("\"" + text + rest, Token(attr), i)
    ensures 1 + |text| <= i
  {
    hide At, Plain;
    var l := "\"" + text + rest;
    PlainTextQuotes(text, rest);
    TokenEndsInQuote(l, attr, i);
    TokenHasOneQuote(l, attr, i);
  }

  /** When a value begins where the other one ends, that is still so after the value is written. */
  lemma StillSwallowed(line: string, a: string, b: string, x: real)
    requires Apart(a, b) && Swallows(line, b, a)
    ensures !Swallows(line, a, b) && Locate(line, a).Some?
    ensures var once := ReplaceAttrDouble(line, a, x);
      && Swallows(once, b, a)
      && once[Locate(once, b).value.end..] == "\"" + Print(x) + line[Locate(line, a).value.end..]
  {
    hide At, Locate, Print, Parse, EndsWith;
    var at, other := Locate(line, a).value, Locate(line, b).value;
    Located(line, a);
    Located(line, b);
    OtherStaysInPlace(line, a, b, x);
    ReadAfterReplace(line, a, x);
    var once := ReplaceAttrDouble(line, a, x);
    assert once == line[..at.start] + Print(x) + line[at.end..];
    assert line[other.end..at.start] == "\"";
  }

  lemma SwallowedAfterBoth(line: string, a: string, b: string, x: real)
    requires Apart(a, b) && Swallows(line, b, a)
    ensures var once := ReplaceAttrDouble(line, a, x);
      && Swallows(once, b, a)
      && TryReadAttrDouble(once[Locate(once, b).value.end..], a)
         == TryReadAttrDouble(line[Locate(line, a).value.end..], a)
  {
    hide At, Locate, Print, Parse, EndsWith, ReplaceAttrDouble, TryReadAttrDouble, Plain;
    StillSwallowed(line, a, b, x);
    Located(line, a);
    ValueIsClosed(line, Locate(line, a).value);
    PrintedIsPlain(x);
    var text, rest := Print(x), line[Locate(line, a).value.end..];
    forall i: nat | At("\"" + text + rest, Token(a), i) ensures |"\"" + text| <= i {
      NothingInPlainText(text, rest, a, i);
    }
    FoundInRest("\"" + text, rest, a);
  }

  /** What the line must be like for both attributes to be found after they are written one after the other. */
  predicate BothAreFound(line: string, a: string, b: string, x: real) {
    && (Swallows(line, a, b) ==> Locate(line[Locate(line, a).value.end..], b).Some?)
    && (Swallows(line, b, a) ==>
          TryReadAttrDouble(line[Locate(line, a).value.end..], a) == Some(Rounded(x)))
  }

  /** Both attributes read what was written if and only if both are found. */
  lemma BothReadAfterBoth(line: string, a: string, b: string, x: real, y: real)
    requires Apart(a, b) && Locate(line, a).Some? && Locate(line, b).Some?
    ensures var l := ReplaceAttrDouble(ReplaceAttrDouble(line, a, x), b, y);
      TryReadAttrDouble(l, a) == Some(Rounded(x)) && TryReadAttrDouble(l, b) == Some(Rounded(y))
      <==> BothAreFound(line, a, b, x)
  {
    hide At, Locate, Print, Parse, EndsWith, ReplaceAttrDouble, TryReadAttrDouble, Rounded, Quoted;
    var once := ReplaceAttrDouble(line, a, x);
    var at := Locate(line, a).value;
    ReadAfterReplace(line, a, x);
    OtherIsFound(line, a, b, x);
    assert Apart(b, a);
    if Swallows(line, b, a) {
      StillSwallowed(line, a, b, x);
      SwallowedAfterBoth(line, a, b, x);
      SwallowedIsFoundBehind(once, b, a, y);
      SwallowerIsLocated(once, b, a);
      ReadAfterReplace(once, b, y);
    } else if OtherPlace(line, a, b).Some? {
      OtherIsApart(line, a, b);
      ReadAfterReplace(once, b, y);
      assert !Swallows(once, b, a);
      OtherReadsTheSame(once, b, a, y);
    } else {
      NothingToWrite(once, b, y);
    }
  }

  lemma NothingToWrite(line: string, attr: string, value: real)
    requires Locate(line, attr).None?
    ensures ReplaceAttrDouble(line, attr, value) == line && TryReadAttrDouble(line, attr).None?
  {
  }

  lemma PlainDoesNotSwallow(line: string, a: string, b: string)
    requires Locate(line, a).Some? && '\"' !in b
    requires Plain(line[Locate(line, a).value.start..Locate(line, a).value.end])
    ensures !Swallows(line, a, b)
  {
    hide At, Locate;
    if Swallows(line, a, b) {
      var at, span := Locate(line, a).value, Locate(line, b).value;
      Located(line, a);
      Located(line, b);
      OccurrenceAroundValue(line, at, b, span.start - |Token(b)|);
      LastOfPlain(line, at);
      assert false;
    }
  }

  lemma LastOfPlain(line: string, at: Span)
    requires at.start <= at.end <= |line| && Plain(line[at.start..at.end])
    ensures at.start < at.end && line[at.end - 1] != '='
  {
    var text := line[at.start..at.end];
    assert text[|text| - 1] in text && text[|text| - 1] == line[at.end - 1];
  }

  /** Unless the first attribute is lost, the line holds both written texts, and neither takes the other's name away. */
  lemma WrittenTexts(line: string, a: string, b: string, x: real, y: real)
    requires Apart(a, b) && Locate(line, a).Some? && OtherPlace(line, a, b).Some? && !Swallows(line, b, a)
    ensures var l := ReplaceAttrDouble(ReplaceAttrDouble(line, a, x), b, y);
      && Locate(l, a).Some? && Locate(l, b).Some?
      && l[Locate(l, a).value.start..Locate(l, a).value.end] == Print(x)
      && l[Locate(l, b).value.start..Locate(l, b).value.end] == Print(y)
      && !Swallows(l, a, b) && !Swallows(l, b, a)
  {
    hide At, Locate, Print, Parse, EndsWith, Quoted, Plain, TryReadAttrDouble;
    var once := ReplaceAttrDouble(line, a, x);
    var l := ReplaceAttrDouble(once, b, y);
    ReadAfterReplace(line, a, x);
    OtherIsFound(line, a, b, x);
    OtherIsApart(line, a, b);
    TextAfterReplace(line, a, x);
    ReadAfterReplace(once, b, y);
    TextAfterReplace(once, b, y);
    assert Apart(b, a) && !Swallows(once, b, a);
    OtherStaysInPlace(once, b, a, y);
    OtherIsApart(once, b, a);
    var atA, atB := Locate(once, a).value, Locate(once, b).value;
    SpanMoves(once, atB, atA, Print(y));
    PrintedIsPlain(x);
    PrintedIsPlain(y);
    PlainDoesNotSwallow(l, a, b);
    PlainDoesNotSwallow(l, b, a);
  }

  lemma TextAfterReplace(line: string, attr: string, value: real)
    requires Locate(line, attr).Some?
    ensures var at, text := Locate(line, attr).value, Print(value);
      ReplaceAttrDouble(line, attr, value)[at.start..at.start + |text|] == text
  {
    hide Locate, Print;
  }

  // ----- What else a line says -----

  predicate Contains(line: string, token: string) {
    Find(line, token, 0).Some?
  }

  /** A token that begins like an element, and in which no quotation mark opens a value of the attribute. */
  predicate IsMarker(token: string, attr: string) {
    && token != "" && token[0] == '<' && attr != ""
    && forall k :: 0 <= k < |token| && token[k] == '\"' ==>
         k >= 2 && !(token[k - 1] == '=' && token[k - 2] == attr[|attr| - 1])
  }

  /** An occurrence that neither reaches into a quoted value nor begins in it. */
  predicate IsClear(token: string, at: Span, i: nat) {
    i + |token| < at.start || at.end < i
  }

  ghost predicate OccursOutside(line: string, token: string, at: Span) {
    exists i: nat :: At(line, token, i) && IsClear(token, at, i)
  }

  lemma ContainsOccurrence(line: string, token: string)
    ensures Contains(line, token) <==> exists i: nat :: At(line, token, i)
  {
    var r := Find(line, token, 0);
    if i: nat :| At(line, token, i) {
      assert i <= |line|;
    }
  }

  lemma LetterOf(line: string, token: string, i: nat, k: nat)
    requires At(line, token, i) && k < |token|
    ensures line[i + k] == token[k]
  {
    assert line[i..i + |token|][k] == token[k];
  }

  /** In front of a value there are the last letter of the attribute's name, the equals sign and the quotation mark. */
  lemma BeforeValue(line: string, attr: string, at: Span)
    requires IsFirst(line, attr, at) && attr != ""
    ensures at.start >= 3 && line[at.start - 2] == '=' && line[at.start - 3] == attr[|attr| - 1]
  {
    var i: nat := at.start - |Token(attr)|;
    LetterOf(line, Token(attr), i, |attr|);
    LetterOf(line, Token(attr), i, |attr| - 1);
  }

  lemma MarkerIsClear(line: string, attr: string, at: Span, token: string, i: nat)
    requires IsFirst(line, attr, at) && IsMarker(token, attr) && At(line, token, i)
    requires forall j :: at.start <= j < at.end ==> line[j] != '<'
    ensures IsClear(token, at, i)
  {
    hide At;
    assert QuoteAt(line, at.start - 1) && QuoteAt(line, at.end);
    BeforeValue(line, attr, at);
    LetterOf(line, token, i, 0);
    if i < at.start <= i + |token| {
      var k: nat := at.start - 1 - i;
      LetterOf(line, token, i, k);
      assert token[k] == '\"';
      LetterOf(line, token, i, k - 1);
      LetterOf(line, token, i, k - 2);
      assert false;
    }
  }

  /** A clear occurrence moves with the text around a value that is replaced, and is clear of the new value. */
  function MovedIndex(i: nat, at: Span, text: string): nat
    requires at.start <= at.end
  {
    if i <= at.end then i else i - at.end + at.start + |text|
  }

  lemma ClearOccurrenceMoves(line: string, at: Span, text: string, token: string, i: nat)
    requires Quoted(line, at) && IsClear(token, at, i)
    ensures At(Replace(line, at, text), token, MovedIndex(i, at, text)) <==> At(line, token, i)
    ensures IsClear(token, NewSpan(at, text), MovedIndex(i, at, text))
  {
    if at.end < i {
      OccurrenceBehind(line, at, text, token, i);
    } else {
      OccurrenceBefore(line, at, text, token, i);
    }
  }

  /** Where a clear occurrence in the new line was in the old one. */
  lemma ClearOccurrenceFrom(line: string, at: Span, text: string, token: string, i: nat) returns (j: nat)
    requires Quoted(line, at) && At(Replace(line, at, text), token, i) && IsClear(token, NewSpan(at, text), i)
    ensures At(line, token, j) && IsClear(token, at, j) && MovedIndex(j, at, text) == i
  {
    j := if at.start + |text| < i then i - |text| - at.start + at.end else i;
    ClearOccurrenceMoves(line, at, text, token, j);
  }

  lemma ReplacedIsFirst(line: string, attr: string, value: real)
    requires Locate(line, attr).Some?
    ensures var at, text := Locate(line, attr).value, Print(value);
      && IsFirst(line, attr, at)
      && IsFirst(Replace(line, at, text), attr, NewSpan(at, text))
      && forall j :: at.start <= j < at.start + |text| ==> Replace(line, at, text)[j] != '<'
  {
    hide Print, Locate, At, Parse;
    var at, text := Locate(line, attr).value, Print(value);
    ReadAfterReplace(line, attr, value);
    Located(line, attr);
    Located(Replace(line, at, text), attr);
    PrintIsPlain(value);
    forall j | at.start <= j < at.start + |text| ensures Replace(line, at, text)[j] != '<' {
      assert Replace(line, at, text)[j] == text[j - at.start] && text[j - at.start] in text;
    }
  }

  /** After an attribute is written, a marker is in the line if and only if it was there outside the old value. */
  lemma MarkerAfterReplace(line: string, attr: string, value: real, token: string)
    requires Locate(line, attr).Some? && IsMarker(token, attr)
    ensures Contains(ReplaceAttrDouble(line, attr, value), token)
       <==> OccursOutside(line, token, Locate(line, attr).value)
  {
    hide Print, Locate, At, IsFirst, IsMarker, IsClear, Contains;
    var at, text := Locate(line, attr).value, Print(value);
    var l := Replace(line, at, text);
    ReplacedIsFirst(line, attr, value);
    FirstIsQuoted(line, attr, at);
    ContainsOccurrence(l, token);
    if i: nat :| At(l, token, i) {
      MarkerIsClear(l, attr, NewSpan(at, text), token, i);
      var j := ClearOccurrenceFrom(line, at, text, token, i);
    }
    if i: nat :| At(line, token, i) && IsClear(token, at, i) {
      ClearOccurrenceMoves(line, at, text, token, i);
    }
  }

  /** A marker in a line is outside both values if these are written ones. */
  lemma MarkerOutsideWritten(line: string, a: string, b: string, x: real, y: real, token: string)
    requires Locate(line, a).Some? && Locate(line, b).Some?
    requires line[Locate(line, a).value.start..Locate(line, a).value.end] == Print(x)
    requires line[Locate(line, b).value.start..Locate(line, b).value.end] == Print(y)
    requires IsMarker(token, a) && IsMarker(token, b) && Contains(line, token)
    ensures OccursOutsideBoth(line, token, Locate(line, a).value, Locate(line, b).value)
  {
    hide At, Locate, Print, IsMarker, IsClear, IsFirst, Contains;
    var atA, atB := Locate(line, a).value, Locate(line, b).value;
    Located(line, a);
    Located(line, b);
    ContainsOccurrence(line, token);
    var i: nat :| At(line, token, i);
    NoMarkInPrinted(line, atA, x);
    NoMarkInPrinted(line, atB, y);
    MarkerIsClear(line, a, atA, token, i);
    MarkerIsClear(line, b, atB, token, i);
  }

  lemma NoMarkInPrinted(line: string, at: Span, value: real)
    requires at.start <= at.end <= |line| && line[at.start..at.end] == Print(value)
    ensures forall j :: at.start <= j < at.end ==> line[j] != '<'
  {
    PrintIsPlain(value);
    hide Print;
    forall j | at.start <= j < at.end ensures line[j] != '<' {
      assert line[j] == Print(value)[j - at.start] && line[j] in Print(value);
    }
  }

  lemma FirstIsQuoted(line: string, attr: string, at: Span)
    requires IsFirst(line, attr, at)
    ensures Quoted(line, at)
  {
  }

  ghost predicate OccursOutsideBoth(line: string, token: string, at: Span, at': Span) {
    exists i: nat :: At(line, token, i) && IsClear(token, at, i) && IsClear(token, at', i)
  }

  lemma ClearOfOther(token: string, at: Span, other: Span, text: string, i: nat)
    requires 0 < at.start <= at.end && other.start <= other.end
    requires other.end < at.start || at.end + 1 < other.start
    requires IsClear(token, at, i) && token != ""
    ensures IsClear(token, Moved(other, at, text), MovedIndex(i, at, text)) <==> IsClear(token, other, i)
  {
  }

  /** The same after two attributes are written, when the second is still found after the first is. */
  lemma MarkerAfterBoth(line: string, a: string, b: string, x: real, y: real, token: string)
    requires Apart(a, b) && Locate(line, a).Some? && OtherPlace(line, a, b).Some?
    requires IsMarker(token, a) && IsMarker(token, b)
    ensures Contains(ReplaceAttrDouble(ReplaceAttrDouble(line, a, x), b, y), token)
       <==> OccursOutsideBoth(line, token, Locate(line, a).value, OtherPlace(line, a, b).value)
  {
    assert token != "";
    hide Print, Locate, At, IsFirst, IsMarker, IsClear, Contains, EndsWith, Moved, MovedIndex, Quoted, OtherPlace;
    var at, other, text := Locate(line, a).value, OtherPlace(line, a, b).value, Print(x);
    var once := Replace(line, at, text);
    OtherIsFound(line, a, b, x);
    OtherIsApart(line, a, b);
    assert Locate(once, b) == Some(Moved(other, at, text));
    MarkerAfterReplace(once, b, y, token);
    ReplacedIsFirst(line, a, x);
    if i: nat :| At(once, token, i) && IsClear(token, Moved(other, at, text), i) {
      MarkerIsClear(once, a, NewSpan(at, text), token, i);
      var j := ClearOccurrenceFrom(line, at, text, token, i);
      ClearOfOther(token, at, other, text, j);
    }
    if i: nat :| At(line, token, i) && IsClear(token, at, i) && IsClear(token, other, i) {
      ClearOccurrenceMoves(line, at, text, token, i);
      ClearOfOther(token, at, other, text, i);
    }
  }

  // ----- An example -----

  lemma FirstByLetter(line: string, attr: string, span: Span)
    requires Quoted(line, span) && attr != ""
    requires |Token(attr)| <= span.start && At(line, Token(attr), span.start - |Token(attr)|)
    requires forall i: nat :: i < span.start - |Token(attr)| ==> line[i] != attr[0]
    ensures Locate(line, attr) == Some(span)
  {
    var t := Token(attr);
    forall i: nat | i < span.start - |t| ensures !At(line, t, i) {
      FirstLetter(line, t, i);
    }
    LocatedIsUnique(line, attr, span);
  }

  lemma FirstLetter(line: string, token: string, i: nat)
    requires token != ""
    ensures At(line, token, i) ==> line[i] == token[0]
  {
    assert At(line, token, i) ==> line[i..i + |token|][0] == token[0];
  }

  const BEFORE: string := "x=\"1 y=\" 5\" y=\"7\""
  const AFTER: string := "x=\"0.000\" 5\" y=\"7\""

  lemma ExampleX()
    ensures Locate(BEFORE, "x") == Some(Span(3, 7))
    ensures Replace(BEFORE, Span(3, 7), "0.000") == AFTER
  {
    hide Locate;
    assert At(BEFORE, Token("x"), 0);
    FirstByLetter(BEFORE, "x", Span(3, 7));
  }

  lemma ExampleY()
    ensures Locate(BEFORE, "y") == Some(Span(8, 10))
  {
    hide Locate;
    assert At(BEFORE, Token("y"), 5);
    FirstByLetter(BEFORE, "y", Span(8, 10));
  }

  lemma ExampleYAfter()
    ensures Locate(AFTER, "y") == Some(Span(16, 17))
  {
    hide Locate;
    assert At(AFTER, Token("y"), 13);
    FirstByLetter(AFTER, "y", Span(16, 17));
  }

  lemma ExampleValues()
    ensures Parse(BEFORE[8..10]) == Some(5.0) && Parse(AFTER[16..17]) == Some(7.0)
  {
    hide Parse, SkipSpaces;
    assert BEFORE[8..10] == " " + "5" && AFTER[16..17] == "7";
    ParsedDigit("5", 5);
    ParsedDigit("7", 7);
    SpaceIsSkipped("5");
  }

  lemma LettersApart()
    ensures Apart("x", "y")
  {
  }

  /** When it does begin there, it need not: the second coordinate of this line is 5 before and 7 after. */
  lemma OtherMayChange()
    ensures Apart("x", "y") && Swallows(BEFORE, "x", "y")
    ensures TryReadAttrDouble(BEFORE, "y") == Some(5.0)
    ensures TryReadAttrDouble(ReplaceAttrDouble(BEFORE, "x", 0.0), "y") == Some(7.0)
  {
    ExampleX();
    ExampleY();
    ExampleYAfter();
    ExampleValues();
    PrintedZero();
    LettersApart();
    hide Parse, Print, Locate, Replace, Apart, BEFORE, AFTER;
  }

  lemma SpaceIsSkipped(s: string)
    requires SkipSpaces(s) == s
    ensures Parse(" " + s) == Parse(s)
  {
    hide Split, Scale, Size, Unsigned;
    assert (" " + s)[1..] == s;
  }

  lemma ParsedDigit(s: string, d: nat)
    requires d < 10 && s == [Digit(d)]
    ensures SkipSpaces(s) == s && Parse(s) == Some(d as real)
  {
    RunOfDigits(s, "");
    assert s + "" == s && s[..1] == s && s[1..] == "";
    NumberOfStep("", d);
    assert "" + [Digit(d)] == s;
    assert Split(s) == Parts(s, "", "");
    assert PowerOfTen(0) == 1.0;
  }

  lemma SplitDigit(s: string, d: nat, tail: string)
    requires d < 10 && s == [Digit(d)] && tail != "" && IsSpace(tail[0])
    ensures Split(s + tail) == Parts(s, "", tail)
  {
    hide Digit;
    RunOfDigits(s, tail);
    assert (s + tail)[..1] == s && (s + tail)[1..] == tail;
  }

  lemma SizeOfDigit(s: string, d: nat)
    requires d < 10 && s == [Digit(d)]
    ensures Size(s, "") == d as real
  {
    NumberOfStep("", d);
    assert "" + s == s && s + "" == s;
    assert PowerOfTen(0) == 1.0;
  }

  lemma ParsedDigitBefore(d: nat, tail: string)
    requires d < 10 && tail != "" && IsSpace(tail[0])
    ensures Parse([Digit(d)] + tail) == Some(d as real)
  {
    var s := [Digit(d)];
    SplitDigit(s, d, tail);
    SizeOfDigit(s, d);
    assert (s + tail)[0] == Digit(d);
    hide Split, Digit, NumberOf, Run;
  }

  lemma PrintedZero()
    ensures Print(0.0) == "0.000"
  {
    assert Thousandths(0.0) == 0;
    assert Digits(0) == "0";
    assert ThreeDigits(0) == "000";
  }
}
