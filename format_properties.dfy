/**
 * What the expander does to whole formats: literal runs are copied, an
 * unterminated placeholder appends the whole format, `{{` is not an escape,
 * and a format built from literals and canonical placeholders `{k}` expands
 * to the text it describes.
 */
module FormatProperties {
  import opened IntParsing
  import opened IntParsingFacts
  import opened CompositeFormat

  /** The first `c` at or after `from` is the only answer `IndexOf` can give. */
  lemma IndexOfFirst(s: string, from: nat, c: char, r: nat)
    requires from + r < |s| && s[from + r] == c
    requires forall k :: from <= k < from + r ==> s[k] != c
    ensures IndexOf(s, from, c) == r
  {
    IndexOfSpec(s, from, c);
  }

  /**
   * The placeholder rule at a `{` whose first later `}` is at `q`: the text
   * strictly between them is parsed; an unparsable text throws
   * `NotAnInteger`, an index naming one of the arguments appends that
   * argument and moves the cursor past the `}`, and any other index throws
   * `IndexOutOfRange`. Both errors name the placeholder `format[pos..q + 1]`.
   */
  lemma PlaceholderStep(format: string, pos: nat, q: nat, args: seq<string>)
    requires pos < q < |format| && format[pos] == '{' && format[q] == '}'
    requires forall k :: pos < k < q ==> format[k] != '}'
    ensures var n := ParseInt32(format, pos + 1, q);
      Expand(format, pos, args) ==
        if n.None? then Failed([], NotAnInteger(pos, q - pos + 1))
        else if 0 <= n.value < |args| then Expand(format, q + 1, args).Prefixed(args[n.value])
        else Failed([], IndexOutOfRange(pos, q - pos + 1, n.value))
  {
    var endIndex := q - pos - 1;
    IndexOfFirst(format, pos + 1, '}', endIndex);
    ExpandPlaceholder(format, pos, args, endIndex);
    assert pos + endIndex + 2 == q + 1;
  }

  /** A `{` with no `}` anywhere after it appends the whole format and ends the call normally. */
  lemma UnterminatedAt(format: string, pos: nat, args: seq<string>)
    requires pos < |format| && format[pos] == '{'
    requires forall k :: pos < k < |format| ==> format[k] != '}'
    ensures Expand(format, pos, args) == Done(format)
  {
    IndexOfSpec(format, pos + 1, '}');
    ExpandUnterminated(format, pos, args);
  }

  /** A run of characters other than `{` is copied as it stands, one character per step. */
  lemma {:induction false} LiteralRun(format: string, pos: nat, end: nat, args: seq<string>)
    requires pos <= end <= |format|
    requires forall k :: pos <= k < end ==> format[k] != '{'
    ensures Expand(format, pos, args) == Expand(format, end, args).Prefixed(format[pos..end])
    decreases end - pos
  {
    if pos == end {
      var e := Expand(format, end, args);
      assert e.Prefixed([]).text == e.text;
      assert e.Prefixed([]) == e;
    } else {
      ExpandLiteral(format, pos, args);
      LiteralRun(format, pos + 1, end, args);
      Expand(format, end, args).PrefixedTwice(format[pos + 1..end], [format[pos]]);
      assert [format[pos]] + format[pos + 1..end] == format[pos..end];
    }
  }

  /** A format without `{` is appended exactly as it is, and nothing is thrown. */
  lemma NoBraceVerbatim(format: string, args: seq<string>)
    requires '{' !in format
    ensures Expand(format, 0, args) == Done(format)
  {
    LiteralRun(format, 0, |format|, args);
    assert format[0..|format|] + [] == format;
  }

  /**
   * A `{` with no `}` after it appends the whole format, after the characters
   * already copied: those appear twice.
   */
  lemma UnterminatedRepeats(format: string, pos: nat, args: seq<string>)
    requires pos < |format| && format[pos] == '{'
    requires forall k :: 0 <= k < pos ==> format[k] != '{'
    requires forall k :: pos < k < |format| ==> format[k] != '}'
    ensures Expand(format, 0, args) == Done(format[..pos] + format)
  {
    LiteralRun(format, 0, pos, args);
    UnterminatedAt(format, pos, args);
  }

  /** `{{` is not an escape: the placeholder's text then begins with `{`, which does not parse. */
  lemma DoubleBraceThrows(format: string, pos: nat, args: seq<string>)
    requires pos + 1 < |format| && format[pos] == '{' && format[pos + 1] == '{'
    requires IndexOf(format, pos + 1, '}') != -1
    ensures var endIndex := IndexOf(format, pos + 1, '}');
      Expand(format, pos, args) == Failed([], NotAnInteger(pos, endIndex + 2))
  {
    var endIndex := IndexOf(format, pos + 1, '}');
    IndexOfSpec(format, pos + 1, '}');
    ExpandPlaceholder(format, pos, args, endIndex);
    ParseRejectsForeign(format, pos + 1, pos + endIndex + 1, pos + 1);
  }

  /** `{}` throws: an empty index does not parse. */
  lemma EmptyPlaceholderThrows(format: string, pos: nat, args: seq<string>)
    requires pos + 1 < |format| && format[pos] == '{' && format[pos + 1] == '}'
    ensures Expand(format, pos, args) == Failed([], NotAnInteger(pos, 2))
  {
    IndexOfFirst(format, pos + 1, '}', 0);
    ExpandPlaceholder(format, pos, args, 0);
    ParseNeedsDigit(format, pos + 1, pos + 1);
  }

  /** The canonical placeholder for argument `k`. */
  function Placeholder(k: nat): string {
    "{" + Decimal(k) + "}"
  }

  /** `format` holds the placeholder `{k}` at `pos`: its brace, its digits and its closing brace. */
  predicate PlaceholderAt(format: string, pos: nat, k: nat) {
    var digits := Decimal(k);
    pos + |digits| + 2 <= |format| && format[pos] == '{' &&
    (forall j :: 0 <= j < |digits| ==> format[pos + 1 + j] == digits[j]) &&
    format[pos + 1 + |digits|] == '}'
  }

  /**
   * The placeholder `{k}` appends argument `k` and moves past its `}` when
   * `k` is in range, and throws otherwise, appending nothing more.
   */
  lemma CanonicalPlaceholder(format: string, pos: nat, args: seq<string>, k: nat, next: nat)
    requires k <= Int32Max
    requires PlaceholderAt(format, pos, k) && next == pos + |Placeholder(k)|
    ensures next <= |format|
    ensures Expand(format, pos, args) ==
      if k < |args| then Expand(format, next, args).Prefixed(args[k])
      else Failed([], IndexOutOfRange(pos, next - pos, k))
  {
    var digits := Decimal(k);
    DecimalRoundTrip(k);
    forall j | pos + 1 <= j < pos + 1 + |digits| ensures format[j] != '}' {
      assert format[pos + 1 + (j - pos - 1)] == digits[j - pos - 1];
    }
    assert format[pos + 1..pos + 1 + |digits|] == digits;
    IndexOfFirst(format, pos + 1, '}', |digits|);
    ExpandPlaceholder(format, pos, args, |digits|);
    ParseDecimal(format, pos + 1, pos + 1 + |digits|, k);
  }

  /** A piece of a format: a character copied as it stands, or the canonical placeholder `{index}`. */
  datatype Segment = Literal(c: char) | Hole(index: nat)
  {
    /** The segment's format text. */
    function Text(): string {
      match this
      case Literal(c) => [c]
      case Hole(k) => Placeholder(k)
    }

    /** A literal other than `{`, or a hole naming one of the arguments. */
    predicate Fits(args: seq<string>) {
      match this
      case Literal(c) => c != '{'
      case Hole(k) => k < |args| && k <= Int32Max
    }

    /** What the expander appends for the segment. */
    function Rendered(args: seq<string>): string
      requires Fits(args)
    {
      match this
      case Literal(c) => [c]
      case Hole(k) => args[k]
    }

    /** `format` holds the segment's text at `pos`. */
    predicate At(format: string, pos: nat) {
      match this
      case Literal(c) => pos < |format| && format[pos] == c
      case Hole(k) => PlaceholderAt(format, pos, k)
    }
  }

  /** A segment's text, wherever it stands in a string, is found there. */
  lemma SegmentAtText(before: string, seg: Segment, after: string)
    ensures seg.At(before + (seg.Text() + after), |before|)
  {
    var f := before + (seg.Text() + after);
    match seg
    case Literal(c) =>
      assert f[|before|] == c;
    case Hole(k) =>
      var digits := Decimal(k);
      var at := |before|;
      assert f[at] == '{';
      assert f[at + 1 + |digits|] == '}';
      forall j | 0 <= j < |digits| ensures f[at + 1 + j] == digits[j] {
        assert f[at + 1 + j] == Placeholder(k)[1 + j];
      }
  }

  /** One segment found in `format` at `pos` is expanded to its rendering. */
  lemma ExpandSegment(format: string, pos: nat, seg: Segment, args: seq<string>, next: nat)
    requires seg.Fits(args) && seg.At(format, pos) && next == pos + |seg.Text()|
    ensures next <= |format|
    ensures Expand(format, pos, args) == Expand(format, next, args).Prefixed(seg.Rendered(args))
  {
    match seg
    case Literal(c) =>
      ExpandLiteral(format, pos, args);
    case Hole(k) =>
      CanonicalPlaceholder(format, pos, args, k, next);
  }

  /** A format built from segments, first segment first. */
  datatype Template = Empty | Then(head: Segment, tail: Template)
  {
    /** The template's format text. */
    function Show(): string {
      match this
      case Empty => []
      case Then(seg, rest) => seg.Text() + rest.Show()
    }

    /** Every segment fits the arguments. */
    predicate Fits(args: seq<string>) {
      match this
      case Empty => true
      case Then(seg, rest) => seg.Fits(args) && rest.Fits(args)
    }

    /** The text the template describes: the literals, with each hole replaced by its argument. */
    function Render(args: seq<string>): string
      requires Fits(args)
    {
      match this
      case Empty => []
      case Then(seg, rest) => seg.Rendered(args) + rest.Render(args)
    }

    /** `format` holds the template's text, one segment after the other, from `pos` on. */
    predicate At(format: string, pos: nat) {
      match this
      case Empty => true
      case Then(seg, rest) => seg.At(format, pos) && rest.At(format, pos + |seg.Text()|)
    }
  }

  /** The template that spells `s` literally, character by character, and then `rest`. */
  function Literals(s: string, rest: Template): Template
    decreases |s|
  {
    if s == [] then rest else Then(Literal(s[0]), Literals(s[1..], rest))
  }

  /** A literal run shows as its own text, fits when it holds no `{`, and renders as itself. */
  lemma {:induction false} LiteralsText(s: string, rest: Template, args: seq<string>)
    ensures Literals(s, rest).Show() == s + rest.Show()
    ensures '{' !in s && rest.Fits(args) ==>
      Literals(s, rest).Fits(args) && Literals(s, rest).Render(args) == s + rest.Render(args)
    decreases |s|
  {
    if s != [] {
      LiteralsText(s[1..], rest, args);
      assert s == [s[0]] + s[1..];
      ConcatAssoc([s[0]], s[1..], rest.Show());
      if '{' !in s && rest.Fits(args) {
        assert '{' !in s[1..];
        ConcatAssoc([s[0]], s[1..], rest.Render(args));
      }
    }
  }

  /** The text of a template, wherever it stands in a string, is found there. */
  lemma {:induction false} TemplateAtShow(before: string, t: Template, after: string)
    ensures t.At(before + (t.Show() + after), |before|)
    decreases t
  {
    match t
    case Empty =>
    case Then(seg, rest) =>
      var head, tail := seg.Text(), rest.Show() + after;
      ConcatAssoc(head, rest.Show(), after);
      SegmentAtText(before, seg, tail);
      TemplateAtShow(before + head, rest, after);
      ConcatAssoc(before, head, tail);
  }

  /** Two outcomes chained by `Prefixed`: the prefixes are appended in order. */
  lemma PrefixedChain(e0: Expansion, e1: Expansion, e2: Expansion, a: string, b: string)
    requires e0 == e1.Prefixed(a) && e1 == e2.Prefixed(b)
    ensures e0 == e2.Prefixed(a + b)
  {
    e2.PrefixedTwice(b, a);
  }

  /** An outcome that is another one with `prefix` before it, where that one returned `text`. */
  lemma PrefixedDone(e: Expansion, later: Expansion, prefix: string, text: string)
    requires e == later.Prefixed(prefix) && later == Done(text)
    ensures e == Done(prefix + text)
  {
  }

  /**
   * Where a format holds a template that fits the arguments, from `pos` to
   * `end`, the expander appends its rendering there.
   */
  lemma {:induction false} ExpandTemplate(format: string, pos: nat, t: Template, args: seq<string>, end: nat)
    requires pos <= |format| && t.Fits(args) && t.At(format, pos) && end == pos + |t.Show()|
    ensures end <= |format|
    ensures Expand(format, pos, args) == Expand(format, end, args).Prefixed(t.Render(args))
    decreases t
  {
    match t
    case Empty =>
      var e := Expand(format, pos, args);
      assert e.Prefixed([]).text == e.text;
      assert e.Prefixed([]) == e;
    case Then(seg, rest) =>
      var next := pos + |seg.Text()|;
      ExpandSegment(format, pos, seg, args, next);
      ExpandTemplate(format, next, rest, args, end);
      PrefixedChain(Expand(format, pos, args), Expand(format, next, args), Expand(format, end, args),
        seg.Rendered(args), rest.Render(args));
  }

  /** Formatting the text of a well-formed template produces its rendering and throws nothing. */
  lemma TemplateRoundTrip(t: Template, args: seq<string>)
    requires t.Fits(args)
    ensures Expand(t.Show(), 0, args) == Done(t.Render(args))
  {
    var f := t.Show();
    TemplateAtShow([], t, []);
    assert [] + (f + []) == f;
    ExpandTemplate(f, 0, t, args, |f|);
    assert t.Render(args) + [] == t.Render(args);
  }

  /** A template followed by an unterminated `{`: the rendering, then the whole format again. */
  lemma TemplateThenUnterminated(t: Template, args: seq<string>, rest: string)
    requires t.Fits(args)
    requires rest != [] && rest[0] == '{' && '}' !in rest
    ensures var format := t.Show() + rest;
      Expand(format, 0, args) == Done(t.Render(args) + format)
  {
    var format := t.Show() + rest;
    TemplateAtShow([], t, rest);
    assert [] + format == format;
    NoCloseAfter(t.Show(), rest);
    UnterminatedAfter(format, t, args);
  }

  /**
   * Literal text free of `{` followed by an unterminated `{`: the text is
   * copied, and then the whole format is appended after it.
   */
  lemma LiteralsThenUnterminated(text: string, rest: string, args: seq<string>)
    requires '{' !in text
    requires rest != [] && rest[0] == '{' && '}' !in rest
    ensures Expand(text + rest, 0, args) == Done(text + (text + rest))
  {
    LiteralsText(text, Empty, args);
    assert text + [] == text;
    TemplateThenUnterminated(Literals(text, Empty), args, rest);
  }

  /** No `}` of `after` turns up in `before + after`, past `before` and the first character of `after`. */
  lemma NoCloseAfter(before: string, after: string)
    requires '}' !in after
    ensures forall k :: |before| < k < |before + after| ==> (before + after)[k] != '}'
  {
    forall k | |before| < k < |before + after| ensures (before + after)[k] != '}' {
      assert (before + after)[k] == after[k - |before|];
    }
  }

  /** The same for any format that holds the template at its start and then an unterminated `{`. */
  lemma UnterminatedAfter(format: string, t: Template, args: seq<string>)
    requires t.Fits(args) && t.At(format, 0)
    requires |t.Show()| < |format| && format[|t.Show()|] == '{'
    requires forall k :: |t.Show()| < k < |format| ==> format[k] != '}'
    ensures Expand(format, 0, args) == Done(t.Render(args) + format)
  {
    ExpandTemplate(format, 0, t, args, |t.Show()|);
    IndexOfSpec(format, |t.Show()| + 1, '}');
    ExpandUnterminated(format, |t.Show()|, args);
    PrefixedDone(Expand(format, 0, args), Expand(format, |t.Show()|, args), t.Render(args), format);
  }

  /**
   * A template followed by a placeholder whose index is out of range: the
   * rendering of the template stays appended and the call throws.
   */
  lemma TemplateThenOutOfRange(t: Template, args: seq<string>, k: nat, rest: string)
    requires t.Fits(args)
    requires |args| <= k <= Int32Max
    ensures var format := t.Show() + (Placeholder(k) + rest);
      Expand(format, 0, args) == Failed(t.Render(args), IndexOutOfRange(|t.Show()|, |Placeholder(k)|, k))
  {
    var format := t.Show() + (Placeholder(k) + rest);
    TemplateAtShow([], t, Placeholder(k) + rest);
    assert [] + format == format;
    SegmentAtText(t.Show(), Hole(k), rest);
    OutOfRangeAfter(format, t, args, k);
  }

  /** The same for any format that holds the template at its start and then the placeholder `{k}`. */
  lemma OutOfRangeAfter(format: string, t: Template, args: seq<string>, k: nat)
    requires t.Fits(args) && t.At(format, 0)
    requires |args| <= k <= Int32Max
    requires PlaceholderAt(format, |t.Show()|, k)
    ensures Expand(format, 0, args) == Failed(t.Render(args), IndexOutOfRange(|t.Show()|, |Placeholder(k)|, k))
  {
    var at := |t.Show()|;
    ExpandTemplate(format, 0, t, args, at);
    CanonicalPlaceholder(format, at, args, k, at + |Placeholder(k)|);
  }
}
