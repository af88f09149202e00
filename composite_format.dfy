/**
 * The composite-format expander of `ValueStringBuilder.AppendFormat`, as a
 * specification: what one call appends to the builder, as a pure function of
 * the format text and the already stringified arguments.
 *
 * The source works on `ReadOnlySpan<char>` views of the format; a view is
 * modelled by the format together with a start and an end (or a length), so
 * `format[(formatIndex + 1)..]` is the range from `formatIndex + 1` to the end
 * and `format.Slice(formatIndex, endIndex + 2)` the range of that length.
 */
module CompositeFormat {
  import opened Wrappers
  import opened IntParsing

  /**
   * The two places where `GetValidArgumentIndex` throws a `FormatException`.
   * Both name the offending placeholder, `format[start..start + length]`.
   */
  datatype FormatError =
    | NotAnInteger(start: nat, length: nat)
    | IndexOutOfRange(start: nat, length: nat, index: int)

  /**
   * What a call appends: `Done(text)` when it returns normally, and
   * `Failed(text, error)` when it throws, where `text` is what was appended
   * before the exception.
   */
  datatype Expansion = Done(text: string) | Failed(text: string, error: FormatError)
  {
    /** The same outcome, with `prefix` appended before it. */
    function Prefixed(prefix: string): (e: Expansion)
      ensures e.text == prefix + text
      ensures e.Done? == Done?
      ensures Failed? ==> e.Failed? && e.error == error
    {
      match this
      case Done(t) => Done(prefix + t)
      case Failed(t, err) => Failed(prefix + t, err)
    }

    lemma PrefixedTwice(inner: string, outer: string)
      ensures Prefixed(inner).Prefixed(outer) == Prefixed(outer + inner)
    {
      assert outer + (inner + text) == (outer + inner) + text;
    }

    /** The exception the call throws, if any. */
    function Exception(): Option<FormatError> {
      match this
      case Done(_) => None
      case Failed(_, err) => Some(err)
    }
  }

  lemma ConcatAssoc(a: string, b: string, c: string)
    ensures (a + b) + c == a + (b + c)
  {
  }

  lemma ConcatEmpty(a: string)
    ensures a + [] == a
  {
  }

  /**
   * `s[from..].IndexOf(c)`: the offset, counted from `from`, of the first `c`
   * at or after `from`, or -1 when there is none.
   */
  function IndexOf(s: string, from: nat, c: char): (r: int)
    requires from <= |s|
    ensures -1 <= r < |s| - from
    decreases |s| - from
  {
    if from == |s| then -1
    else if s[from] == c then 0
    else
      var r := IndexOf(s, from + 1, c);
      if r == -1 then -1 else r + 1
  }

  /**
   * `IndexOf` answers -1 exactly when no `c` follows `from`, and otherwise the
   * offset of a `c` with none before it.
   */
  lemma {:induction false} IndexOfSpec(s: string, from: nat, c: char)
    requires from <= |s|
    ensures IndexOf(s, from, c) == -1 <==> forall k :: from <= k < |s| ==> s[k] != c
    ensures var r := IndexOf(s, from, c);
      0 <= r ==> s[from + r] == c && forall k :: from <= k < from + r ==> s[k] != c
    decreases |s| - from
  {
    if from < |s| && s[from] != c {
      IndexOfSpec(s, from + 1, c);
    }
  }

  /**
   * `GetValidArgumentIndex(placeholder, allowedRange)` for the placeholder
   * `format[start..start + length]`: the text between its braces must parse as
   * an integer, and that integer must lie in `[0, allowedRange]`.
   */
  function GetValidArgumentIndex(format: string, start: nat, length: nat, allowedRange: int): (r: Result<int, FormatError>)
    requires 2 <= length && start + length <= |format|
    ensures r.Success? <==>
      var n := ParseInt32(format, start + 1, start + length - 1); n.Some? && 0 <= n.value <= allowedRange
    ensures r.Success? ==> ParseInt32(format, start + 1, start + length - 1) == Some(r.value)
    ensures ParseInt32(format, start + 1, start + length - 1).None? ==> r == Failure(NotAnInteger(start, length))
    ensures var n := ParseInt32(format, start + 1, start + length - 1);
      n.Some? && (n.value < 0 || n.value > allowedRange) ==> r == Failure(IndexOutOfRange(start, length, n.value))
  {
    match ParseInt32(format, start + 1, start + length - 1)
    case None => Failure(NotAnInteger(start, length))
    case Some(argIndex) =>
      if argIndex < 0 || argIndex > allowedRange then Failure(IndexOutOfRange(start, length, argIndex))
      else Success(argIndex)
  }

  /**
   * What `AppendFormat` appends when its cursor stands at `pos` of `format`,
   * with `args[k]` the text of argument `k` (the overload's arity is `|args|`).
   * A character other than `{` is copied; a `{` opens a placeholder that runs
   * to the first later `}`; a `{` with no later `}` appends the whole of
   * `format` and ends the call.
   *
   * The definition is the loop `Run` and its body `Step`; lemmas about
   * `Expand` open them one level at a time, through the step lemmas below.
   */
  function Expand(format: string, pos: nat, args: seq<string>): Expansion
    requires pos <= |format|
  {
    Run(format, pos, args)
  }

  /** The `while (formatIndex < format.Length)` loop: nothing is left at the end of the format. */
  function Run(format: string, pos: nat, args: seq<string>): Expansion
    requires pos <= |format|
    decreases |format| - pos, 1
  {
    if pos == |format| then Done([]) else Step(format, pos, args)
  }

  /** One pass of the loop body, at the character `format[pos]`. */
  function Step(format: string, pos: nat, args: seq<string>): Expansion
    requires pos < |format|
    decreases |format| - pos, 0
  {
    if format[pos] != '{' then Run(format, pos + 1, args).Prefixed([format[pos]])
    else
      var endIndex := IndexOf(format, pos + 1, '}');
      if endIndex == -1 then Done(format)
      else
        match GetValidArgumentIndex(format, pos, endIndex + 2, |args| - 1)
        case Failure(err) => Failed([], err)
        case Success(n) => Run(format, pos + endIndex + 2, args).Prefixed(args[n])
  }

  /** At the end of the format nothing more is appended. */
  lemma ExpandEnd(format: string, args: seq<string>)
    ensures Expand(format, |format|, args) == Done([])
  {
  }

  /** One literal step of the expander. */
  lemma ExpandLiteral(format: string, pos: nat, args: seq<string>)
    requires pos < |format| && format[pos] != '{'
    ensures Expand(format, pos, args) == Expand(format, pos + 1, args).Prefixed([format[pos]])
  {
    assert Expand(format, pos, args) == Step(format, pos, args);
  }

  /** A `{` with no later `}`: the whole format is appended and the call ends. */
  lemma ExpandUnterminated(format: string, pos: nat, args: seq<string>)
    requires pos < |format| && format[pos] == '{'
    requires IndexOf(format, pos + 1, '}') == -1
    ensures Expand(format, pos, args) == Done(format)
  {
    assert Expand(format, pos, args) == Step(format, pos, args);
  }

  /** One placeholder step of the expander, at a `{` whose first later `}` is `endIndex + 1` further on. */
  lemma ExpandPlaceholder(format: string, pos: nat, args: seq<string>, endIndex: int)
    requires pos < |format| && format[pos] == '{'
    requires endIndex == IndexOf(format, pos + 1, '}') && endIndex != -1
    ensures var r := GetValidArgumentIndex(format, pos, endIndex + 2, |args| - 1);
      Expand(format, pos, args) ==
        if r.Failure? then Failed([], r.error)
        else Expand(format, pos + endIndex + 2, args).Prefixed(args[r.value])
  {
    assert Expand(format, pos, args) == Step(format, pos, args);
  }

  /**
   * The one-argument overload validates the placeholder against range 0 and
   * then appends its argument without looking at the index: the same step as
   * the shared loop's, since the only valid index is 0.
   */
  lemma ExpandPlaceholderSingle(format: string, pos: nat, arg: string, endIndex: int)
    requires pos < |format| && format[pos] == '{'
    requires endIndex == IndexOf(format, pos + 1, '}') && endIndex != -1
    ensures var r := GetValidArgumentIndex(format, pos, endIndex + 2, 0);
      Expand(format, pos, [arg]) ==
        if r.Failure? then Failed([], r.error)
        else Expand(format, pos + endIndex + 2, [arg]).Prefixed(arg)
  {
    ExpandPlaceholder(format, pos, [arg], endIndex);
  }
}
