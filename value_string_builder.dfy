/**
 * The builder itself, reduced to what the format expander touches: its
 * content, which only ever grows at the end, and the `AppendFormat` loops.
 */
module StringBuilder {
  import opened Wrappers
  import opened CompositeFormat

  class ValueStringBuilder {
    /** The characters written so far (the `[0, length)` part of the active buffer). */
    var content: seq<char>

    constructor ()
      ensures content == []
    {
      content := [];
    }

    /** `Append(char)`. */
    method AppendChar(c: char)
      modifies this
      ensures content == old(content) + [c]
    {
      content := content + [c];
    }

    /**
     * `Append(ReadOnlySpan<char>)`; also `AppendInternal(arg)` once the
     * argument has been turned into text.
     */
    method Append(s: string)
      modifies this
      ensures content == old(content) + s
    {
      content := content + s;
    }

    /**
     * The shared loop of the three overloads, with `args[k]` the text of
     * argument `k` and `allowedRange == |args| - 1`. A thrown
     * `FormatException` is the returned error; whatever was appended before
     * it stays in the builder.
     */
    method AppendFormat(format: string, args: seq<string>) returns (error: Option<FormatError>)
      requires 1 <= |args| <= 3
      modifies this
      ensures content == old(content) + Expand(format, 0, args).text
      ensures error == Expand(format, 0, args).Exception()
    {
      ghost var prior := content;
      ghost var appended: string := [];
      var formatIndex := 0;
      while formatIndex < |format|
        invariant 0 <= formatIndex <= |format|
        invariant content == prior + appended
        invariant Expand(format, 0, args) == Expand(format, formatIndex, args).Prefixed(appended)
        decreases |format| - formatIndex
      {
        var c := format[formatIndex];
        if c == '{' {
          var endIndex := IndexOf(format, formatIndex + 1, '}');
          if endIndex == -1 {
            ExpandUnterminated(format, formatIndex, args);
            ConcatAssoc(prior, appended, format);
            Append(format);
            return None;
          }
          var index := GetValidArgumentIndex(format, formatIndex, endIndex + 2, |args| - 1);
          ExpandPlaceholder(format, formatIndex, args, endIndex);
          if index.Failure? {
            ConcatEmpty(appended);
            return Some(index.error);
          }
          Expand(format, formatIndex + endIndex + 2, args).PrefixedTwice(args[index.value], appended);
          ConcatAssoc(prior, appended, args[index.value]);
          Append(args[index.value]);
          appended := appended + args[index.value];
          formatIndex := formatIndex + endIndex + 2;
        } else {
          ExpandLiteral(format, formatIndex, args);
          Expand(format, formatIndex + 1, args).PrefixedTwice([c], appended);
          ConcatAssoc(prior, appended, [c]);
          AppendChar(c);
          appended := appended + [c];
          formatIndex := formatIndex + 1;
        }
      }
      ConcatEmpty(appended);
      return None;
    }

    /**
     * `AppendFormat<T>(format, arg)`: the validated index is discarded and
     * `arg` appended, which is the same as the shared loop with one argument.
     */
    method AppendFormat1(format: string, arg: string) returns (error: Option<FormatError>)
      modifies this
      ensures content == old(content) + Expand(format, 0, [arg]).text
      ensures error == Expand(format, 0, [arg]).Exception()
    {
      ghost var prior := content;
      ghost var appended: string := [];
      var formatIndex := 0;
      while formatIndex < |format|
        invariant 0 <= formatIndex <= |format|
        invariant content == prior + appended
        invariant Expand(format, 0, [arg]) == Expand(format, formatIndex, [arg]).Prefixed(appended)
        decreases |format| - formatIndex
      {
        var c := format[formatIndex];
        if c == '{' {
          var endIndex := IndexOf(format, formatIndex + 1, '}');
          if endIndex == -1 {
            ExpandUnterminated(format, formatIndex, [arg]);
            ConcatAssoc(prior, appended, format);
            Append(format);
            return None;
          }
          var index := GetValidArgumentIndex(format, formatIndex, endIndex + 2, 0);
          ExpandPlaceholderSingle(format, formatIndex, arg, endIndex);
          if index.Failure? {
            ConcatEmpty(appended);
            return Some(index.error);
          }
          Expand(format, formatIndex + endIndex + 2, [arg]).PrefixedTwice(arg, appended);
          ConcatAssoc(prior, appended, arg);
          Append(arg);
          appended := appended + arg;
          formatIndex := formatIndex + endIndex + 2;
        } else {
          ExpandLiteral(format, formatIndex, [arg]);
          Expand(format, formatIndex + 1, [arg]).PrefixedTwice([c], appended);
          ConcatAssoc(prior, appended, [c]);
          AppendChar(c);
          appended := appended + [c];
          formatIndex := formatIndex + 1;
        }
      }
      ConcatEmpty(appended);
      return None;
    }

    /** `AppendFormat<T1, T2>(format, arg1, arg2)`. */
    method AppendFormat2(format: string, arg1: string, arg2: string) returns (error: Option<FormatError>)
      modifies this
      ensures content == old(content) + Expand(format, 0, [arg1, arg2]).text
      ensures error == Expand(format, 0, [arg1, arg2]).Exception()
    {
      error := AppendFormat(format, [arg1, arg2]);
    }

    /** `AppendFormat<T1, T2, T3>(format, arg1, arg2, arg3)`. */
    method AppendFormat3(format: string, arg1: string, arg2: string, arg3: string)
      returns (error: Option<FormatError>)
      modifies this
      ensures content == old(content) + Expand(format, 0, [arg1, arg2, arg3]).text
      ensures error == Expand(format, 0, [arg1, arg2, arg3]).Exception()
    {
      error := AppendFormat(format, [arg1, arg2, arg3]);
    }
  }
}
