/**
 * Concrete calls of the expander and of the builder: examples, the edge cases of the placeholder syntax, and what a thrown
 * `FormatException` leaves behind.
 */
module FormatExamples {
  import opened Wrappers
  import opened IntParsing
  import opened IntParsingFacts
  import opened CompositeFormat
  import opened FormatProperties
  import opened StringBuilder

  /** `{0}` with the argument `hi` appends `hi`. */
  lemma SinglePlaceholder()
    ensures Expand("{0}", 0, ["hi"]) == Done("hi")
  {
    var t := Then(Hole(0), Empty);
    assert Decimal(0) == "0";
    assert t.Show() == "{0}";
    TemplateRoundTrip(t, ["hi"]);
  }

  /** Two placeholders between literals free of `{`: each placeholder is replaced by its argument. */
  lemma TwoPlaceholders(a: string, b: string, x: string, y: string)
    requires '{' !in a && '{' !in b
    ensures Expand(a + ("{0}" + (b + "{1}")), 0, [x, y]) == Done(a + (x + (b + y)))
  {
    var args := [x, y];
    assert Decimal(0) == "0" && Decimal(1) == "1";
    var last := Then(Hole(1), Empty);
    assert last.Show() == "{1}" + [];
    assert last.Render(args) == y + [];
    LiteralsText(b, last, args);
    var first := Then(Hole(0), Literals(b, last));
    assert Hole(0).Text() == "{0}" && Hole(0).Rendered(args) == x;
    assert first.Show() == "{0}" + (b + "{1}");
    assert first.Fits(args) && first.Render(args) == x + (b + y);
    LiteralsText(a, first, args);
    TemplateRoundTrip(Literals(a, first), args);
  }

  /** The greeting `Hello {0}, you are {1}` with the arguments `Bob` and `42`. */
  lemma Greeting()
    ensures Expand("Hello " + ("{0}" + (", you are " + "{1}")), 0, ["Bob", "42"]) ==
      Done("Hello " + ("Bob" + (", you are " + "42")))
  {
    TwoPlaceholders("Hello ", ", you are ", "Bob", "42");
  }

  /** An unterminated `{`: `literal ` is copied, then the whole format follows it. */
  lemma Unterminated()
    ensures Expand("literal " + "{0", 0, ["x"]) == Done("literal " + ("literal " + "{0"))
  {
    LiteralsThenUnterminated("literal ", "{0", ["x"]);
  }

  /** `{2}` with one argument is out of range: the placeholder at 0, three characters long, names index 2. */
  lemma IndexTooLarge()
    ensures Expand("{2}", 0, ["a"]) == Failed([], IndexOutOfRange(0, 3, 2))
  {
    assert Decimal(2) == "2";
    CanonicalPlaceholder("{2}", 0, ["a"], 2, 3);
  }

  /** `{}` throws. */
  lemma EmptyIndex()
    ensures Expand("{}", 0, ["a"]) == Failed([], NotAnInteger(0, 2))
  {
    EmptyPlaceholderThrows("{}", 0, ["a"]);
  }

  /** `{{0}` throws: the placeholder is `{{0}`, and `{0` is not an integer. */
  lemma DoubleBrace()
    ensures Expand("{{0}", 0, ["a"]) == Failed([], NotAnInteger(0, 4))
  {
    IndexOfFirst("{{0}", 1, '}', 2);
    DoubleBraceThrows("{{0}", 0, ["a"]);
  }

  /** `{0:00}` throws: a custom format specifier is not part of an integer. */
  lemma FormatSpecifier()
    ensures Expand("{0:00}", 0, ["a"]) == Failed([], NotAnInteger(0, 6))
  {
    var f := "{0:00}";
    PlaceholderStep(f, 0, 5, ["a"]);
    ParseRejectsForeign(f, 1, 5, 2);
  }

  /** White space around the index, and a sign before it, are accepted. */
  lemma SpacesAndSigns()
    ensures Expand("{ 1 }", 0, ["a", "b"]) == Done("b")
    ensures Expand("{-0}", 0, ["a"]) == Done("a")
  {
    var f := "{ 1 }";
    PlaceholderStep(f, 0, 4, ["a", "b"]);
    assert f[2..3] == "1";
    ParseSpelled(f, 1, 2, 2, 3, 4);
    ExpandEnd(f, ["a", "b"]);
    var g := "{-0}";
    PlaceholderStep(g, 0, 3, ["a"]);
    assert g[2..3] == "0";
    ParseSpelled(g, 1, 1, 2, 3, 3);
    ExpandEnd(g, ["a"]);
  }

  /** `{-1}` parses, but a negative index is out of range. */
  lemma NegativeIndex()
    ensures Expand("{-1}", 0, ["a"]) == Failed([], IndexOutOfRange(0, 4, -1))
  {
    var f := "{-1}";
    PlaceholderStep(f, 0, 3, ["a"]);
    assert f[2..3] == "1";
    ParseSpelled(f, 1, 1, 2, 3, 3);
  }

  /** `{+1}` and `{01}` both name argument 1: a plus sign and leading zeros are accepted. */
  lemma PlusAndLeadingZero()
    ensures Expand("{+1}", 0, ["a", "b"]) == Done("b")
    ensures Expand("{01}", 0, ["a", "b"]) == Done("b")
  {
    var f := "{+1}";
    PlaceholderStep(f, 0, 3, ["a", "b"]);
    assert f[2..3] == "1";
    ParseSpelled(f, 1, 1, 2, 3, 3);
    ExpandEnd(f, ["a", "b"]);
    var g := "{01}";
    PlaceholderStep(g, 0, 3, ["a", "b"]);
    assert g[1..3] == "01";
    assert DecimalValue("01") == 1;
    ParseSpelled(g, 1, 1, 1, 3, 3);
    ExpandEnd(g, ["a", "b"]);
  }

  /** A `}` with no `{` before it is copied like any other character. */
  lemma LoneClosingBrace()
    ensures Expand("a}b", 0, ["x"]) == Done("a}b")
  {
    NoBraceVerbatim("a}b", ["x"]);
  }

  /** A bad placeholder after good ones: what was appended before it stays. */
  lemma PrefixKept()
    ensures Expand("x{0}y{5}", 0, ["A", "B"]) == Failed("xAy", IndexOutOfRange(5, 3, 5))
  {
    var f := "x{0}y{5}";
    var args := ["A", "B"];
    assert Decimal(0) == "0" && Decimal(5) == "5";
    ExpandLiteral(f, 0, args);
    CanonicalPlaceholder(f, 1, args, 0, 4);
    ExpandLiteral(f, 4, args);
    CanonicalPlaceholder(f, 5, args, 5, 8);
    assert Expand(f, 4, args) == Failed("y", IndexOutOfRange(5, 3, 5));
    assert Expand(f, 1, args) == Failed("A" + "y", IndexOutOfRange(5, 3, 5));
    assert "x" + ("A" + "y") == "xAy";
  }

  /**
   * The builder keeps what it held before the call: `pre`, then the
   * unterminated format's copied prefix and the whole format.
   */
  method BuilderUnterminated() returns (content: string, error: Option<FormatError>)
    ensures content == "pre" + ("literal " + ("literal " + "{0")) && error == None
  {
    var b := new ValueStringBuilder();
    b.Append("pre");
    error := b.AppendFormat1("literal " + "{0", "x");
    Unterminated();
    content := b.content;
  }

  /** A throwing call leaves the builder with its old content and what the call appended first. */
  method BuilderThrows() returns (content: string, error: Option<FormatError>)
    ensures content == "> " + "xAy" && error == Some(IndexOutOfRange(5, 3, 5))
  {
    var b := new ValueStringBuilder();
    b.Append("> ");
    error := b.AppendFormat2("x{0}y{5}", "A", "B");
    PrefixKept();
    content := b.content;
  }
}
