/** Comma-separated tags with backslash-escaped commas (bridge/util.go).

    The parser edits its string in place, keeps a moving offset and recurses on the
    rest.  It is proved against a plain split-then-unescape specification, and the
    specification is tied to the printer that escapes and joins.
  */
module TagParser {

  // ---------------------------------------------------------------- specification

  /** A comma separates two tags unless a backslash stands right before it. */
  predicate IsSeparator(s: string, i: nat)
    requires i < |s|
  {
    s[i] == ',' && (i == 0 || s[i - 1] != '\\')
  }

  /** Index of the first separator at or after `from`, or `|s|`. */
  function FirstSeparator(s: string, from: nat): (k: nat)
    requires from <= |s|
    ensures from <= k <= |s|
    ensures k < |s| ==> IsSeparator(s, k)
    ensures forall i: nat :: from <= i < k ==> !IsSeparator(s, i)
    decreases |s| - from
  {
    if from == |s| then from
    else if IsSeparator(s, from) then from
    else FirstSeparator(s, from + 1)
  }

  /** The raw fields between separators, empty ones included. */
  function Split(s: string): (fields: seq<string>)
    ensures |fields| >= 1
    decreases |s|
  {
    var k := FirstSeparator(s, 0);
    if k == |s| then [s] else [s[..k]] + Split(s[k + 1..])
  }

  /** Every backslash-comma pair becomes a comma. */
  function Unescape(s: string): (r: string)
  {
    if |s| < 2 then s
    else if s[0] == '\\' && s[1] == ',' then "," + Unescape(s[2..])
    else [s[0]] + Unescape(s[1..])
  }

  /** Unescapes the non-empty raw fields, last field first. */
  function ReversedTags(fields: seq<string>): (tags: seq<string>)
  {
    if fields == [] then []
    else ReversedTags(fields[1..]) + (if fields[0] == "" then [] else [Unescape(fields[0])])
  }

  /** What the parser returns. */
  function Tags(s: string): (tags: seq<string>)
  {
    ReversedTags(Split(s))
  }

  // ---------------------------------------------------------------- the parser

  lemma UnescapePlain(s: string)
    requires s != "" && (|s| == 1 || s[0] != '\\' || s[1] != ',')
    ensures Unescape(s) == [s[0]] + Unescape(s[1..])
  {
  }

  lemma TailConcat(a: string, b: string)
    requires |a| >= 2
    ensures (a + b)[0] == a[0] && (a + b)[1] == a[1]
    ensures (a + b)[1..] == a[1..] + b && (a + b)[2..] == a[2..] + b
  {
  }

  lemma ConsConcat(c: char, u: string, v: string)
    ensures [c] + (u + v) == ([c] + u) + v
  {
  }

  lemma PlainStep(a: string, b: string)
    requires |a| >= 2 && (a[0] != '\\' || a[1] != ',')
    requires Unescape(a[1..] + b) == Unescape(a[1..]) + Unescape(b)
    ensures Unescape(a + b) == Unescape(a) + Unescape(b)
  {
    TailConcat(a, b);
    UnescapePlain(a + b);
    UnescapePlain(a);
    ConsConcat(a[0], Unescape(a[1..]), Unescape(b));
  }

  lemma UnescapeComma(s: string)
    requires |s| >= 2 && s[0] == '\\' && s[1] == ','
    ensures Unescape(s) == [','] + Unescape(s[2..])
  {
  }

  lemma EscapeStep(a: string, b: string)
    requires |a| >= 2 && a[0] == '\\' && a[1] == ','
    requires Unescape(a[2..] + b) == Unescape(a[2..]) + Unescape(b)
    ensures Unescape(a + b) == Unescape(a) + Unescape(b)
  {
    TailConcat(a, b);
    UnescapeComma(a + b);
    UnescapeComma(a);
    ConsConcat(',', Unescape(a[2..]), Unescape(b));
  }

  lemma {:induction false} UnescapeConcat(a: string, b: string)
    requires a == "" || b == "" || a[|a| - 1] != '\\' || b[0] != ','
    ensures Unescape(a + b) == Unescape(a) + Unescape(b)
    decreases |a|
  {
    if a == "" {
      assert a + b == b;
    } else if b == "" {
      assert a + b == a;
    } else if |a| == 1 {
      UnescapePlain(a + b);
      assert (a + b)[1..] == b;
    } else if a[0] == '\\' && a[1] == ',' {
      UnescapeConcat(a[2..], b);
      EscapeStep(a, b);
    } else {
      UnescapeConcat(a[1..], b);
      PlainStep(a, b);
    }
  }

  lemma {:induction false} UnescapeNoComma(s: string)
    requires ',' !in s
    ensures Unescape(s) == s
  {
    if |s| >= 2 {
      assert s[1] in s;
      UnescapeNoComma(s[1..]);
    }
  }

  /** One escaped comma at the end of a comma-free stretch loses its backslash. */
  lemma UnescapeEscapedComma(c: string)
    requires ',' !in c
    ensures Unescape(c + "\\,") == c + ","
  {
    UnescapeConcat(c, "\\,");
    UnescapeNoComma(c);
    assert Unescape("\\,") == ",";
  }

  /** Looks for the first comma, as `strings.Index(str, ",")` does. */
  method IndexOfComma(s: string) returns (index: int)
    ensures index == -1 ==> ',' !in s
    ensures index != -1 ==> 0 <= index < |s| && s[index] == ',' && ',' !in s[..index]
  {
    index := 0;
    while index < |s|
      invariant 0 <= index <= |s|
      invariant ',' !in s[..index]
    {
      if s[index] == ',' {
        return;
      }
      index := index + 1;
    }
    index := -1;
  }

  /** The first comma of `str` from `offset` on stands `index` further. */
  predicate CommaAt(str: string, offset: nat, index: nat)
  {
    offset + index < |str| && str[offset + index] == ',' && ',' !in str[offset..][..index]
  }

  /** `strings.Index(str[offset:], ",")` */
  method FindComma(str: string, offset: nat) returns (index: int)
    requires offset <= |str|
    ensures index == -1 ==> ',' !in str[offset..]
    ensures index != -1 ==> index >= 0 && CommaAt(str, offset, index)
  {
    index := IndexOfComma(str[offset..]);
    if index != -1 {
      assert str[offset + index] == str[offset..][index];
    }
  }

  /** `str[k - 1:k] == "\"` */
  predicate BackslashBefore(str: string, k: nat)
    requires 0 < k <= |str|
    ensures BackslashBefore(str, k) <==> str[k - 1] == '\\'
  {
    assert str[k - 1..k] == [str[k - 1]];
    str[k - 1..k] == "\\"
  }

  lemma EmptyTags()
    ensures Tags("") == []
  {
    assert Split("") == [""];
    assert ReversedTags([""]) == ReversedTags([]) + [];
  }

  lemma LeadingSeparator(s: string)
    requires s != "" && s[0] == ','
    ensures Tags(s) == Tags(s[1..])
  {
    assert IsSeparator(s, 0);
    assert FirstSeparator(s, 0) == 0;
    assert s[..0] == "";
    assert ([""] + Split(s[1..]))[1..] == Split(s[1..]);
  }

  lemma FirstSeparatorIs(s: string, from: nat, k: nat)
    requires from <= k <= |s|
    requires k < |s| ==> IsSeparator(s, k)
    requires forall i: nat :: from <= i < k ==> !IsSeparator(s, i)
    ensures FirstSeparator(s, from) == k
  {
  }

  lemma SplitAtSeparator(s: string, k: nat)
    requires 0 < k < |s| && IsSeparator(s, k)
    requires forall i: nat :: i < k ==> !IsSeparator(s, i)
    ensures Tags(s) == Tags(s[k + 1..]) + [Unescape(s[..k])]
  {
    FirstSeparatorIs(s, 0, k);
    assert ([s[..k]] + Split(s[k + 1..]))[1..] == Split(s[k + 1..]);
    assert |s[..k]| == k;
  }

  lemma NoSeparatorTags(s: string)
    requires s != ""
    requires forall i: nat :: i < |s| ==> !IsSeparator(s, i)
    ensures Tags(s) == [Unescape(s)]
  {
    FirstSeparatorIs(s, 0, |s|);
    assert Split(s) == [s];
    assert ReversedTags([s]) == ReversedTags([]) + [Unescape(s)];
  }

  /** The loop of the parser: `done` bytes of the original are behind the offset, with
      their escapes already removed, and none of their commas separates. */
  ghost predicate Edited(orig: string, done: nat, str: string, offset: nat)
  {
    && done <= |orig|
    && offset <= |str|
    && str[..offset] == Unescape(orig[..done])
    && str[offset..] == orig[done..]
    && (offset == 0 <==> done == 0)
    && (done > 0 ==> orig[done - 1] == ',' && str[offset - 1] == ',')
    && forall i: nat :: i < done ==> !IsSeparator(orig, i)
  }

  /** No comma in `rest[..index]`, so none up to there separates in the original. */
  lemma NoSeparatorBefore(orig: string, done: nat, index: nat)
    requires done + index <= |orig| && ',' !in orig[done..][..index]
    requires forall i: nat :: i < done ==> !IsSeparator(orig, i)
    ensures forall i: nat :: i < done + index ==> !IsSeparator(orig, i)
  {
    assert forall i: nat :: done <= i < done + index ==> orig[i] == orig[done..][..index][i - done];
  }

  /** Unescaping goes on after `done` with a comma-free stretch. */
  lemma UnescapeOn(orig: string, done: nat, chunk: string, more: string)
    requires done <= |orig| && (done == 0 || orig[done - 1] == ',')
    requires orig[done..] == chunk + more && ',' !in chunk
    ensures |orig| == done + |chunk| + |more|
    ensures Unescape(orig[..done + |chunk|]) == Unescape(orig[..done]) + chunk
  {
    assert orig == orig[..done] + chunk + more;
    assert orig[..done + |chunk|] == orig[..done] + chunk;
    UnescapeConcat(orig[..done], chunk);
    UnescapeNoComma(chunk);
  }

  /** The same with an escaped comma after the stretch. */
  lemma UnescapePast(orig: string, done: nat, chunk: string, more: string)
    requires done <= |orig| && (done == 0 || orig[done - 1] == ',')
    requires orig[done..] == chunk + "\\," + more && ',' !in chunk
    ensures |orig| == done + |chunk| + 2 + |more|
    ensures Unescape(orig[..done + |chunk| + 2]) == Unescape(orig[..done]) + (chunk + ",")
  {
    var past := chunk + "\\,";
    assert orig == orig[..done] + past + more;
    assert orig[..done + |chunk| + 2] == orig[..done] + past;
    UnescapeConcat(orig[..done], past);
    UnescapeEscapedComma(chunk);
  }

  /** Cutting the backslash out of the edited string. */
  lemma CutBackslash(u: string, chunk: string, more: string)
    ensures var str, k := u + (chunk + "\\," + more), |u| + |chunk| + 1;
            str[..k - 1] + str[k..] == u + (chunk + ",") + more
  {
    var str, k := u + (chunk + "\\," + more), |u| + |chunk| + 1;
    assert str[..k - 1] == u + chunk;
    assert str[k..] == "," + more;
  }

  /** What the cut string is, once the escaped comma is behind the offset. */
  lemma EditedNext(orig: string, next: nat, u: string, more: string)
    requires 2 <= next <= |orig| && Unescape(orig[..next]) == u + "," && orig[next..] == more
    requires orig[next - 1] == ',' && orig[next - 2] == '\\'
    requires forall i: nat :: i < next - 1 ==> !IsSeparator(orig, i)
    ensures Edited(orig, next, u + "," + more, |u| + 1)
  {
    var str := u + "," + more;
    assert str[..|u| + 1] == u + "," && str[|u| + 1..] == more && str[|u|] == ',';
  }

  lemma EscapedComma(rest: string, index: nat)
    requires 0 < index < |rest| && rest[index] == ',' && rest[index - 1] == '\\' && ',' !in rest[..index]
    ensures rest == rest[..index - 1] + "\\," + rest[index + 1..]
    ensures ',' !in rest[..index - 1]
  {
    assert rest[..index] == rest[..index - 1] + [rest[index - 1]];
  }

  lemma EditedSkip(orig: string, done: nat, str: string, offset: nat, index: nat)
    requires Edited(orig, done, str, offset)
    requires CommaAt(str, offset, index)
    requires 0 < offset + index && str[offset + index - 1] == '\\'
    ensures Edited(orig, done + index + 1, str[..offset + index - 1] + str[offset + index..], offset + index)
  {
    var u, rest := Unescape(orig[..done]), orig[done..];
    assert str[offset..] == rest;
    assert index > 0 && rest[index] == ',' && rest[index - 1] == '\\';
    var chunk, more := rest[..index - 1], rest[index + 1..];
    EscapedComma(rest, index);
    NoSeparatorBefore(orig, done, index);
    SkipEscaped(orig, done, chunk, more);
    assert str == u + rest;
    CutBackslash(u, chunk, more);
  }

  lemma PastEscaped(orig: string, done: nat, chunk: string, more: string)
    requires done <= |orig| && orig[done..] == chunk + "\\," + more
    ensures var next := done + |chunk| + 2;
            && |orig| == next + |more| && orig[next..] == more
            && orig[next - 1] == ',' && orig[next - 2] == '\\'
  {
    var rest := orig[done..];
    assert orig[done + |chunk|] == rest[|chunk|] && orig[done + |chunk| + 1] == rest[|chunk| + 1];
    assert orig[done + |chunk| + 2..] == rest[|chunk| + 2..];
  }

  lemma SkipEscaped(orig: string, done: nat, chunk: string, more: string)
    requires done <= |orig| && (done == 0 || orig[done - 1] == ',')
    requires orig[done..] == chunk + "\\," + more && ',' !in chunk
    requires forall i: nat :: i < done + |chunk| + 1 ==> !IsSeparator(orig, i)
    ensures |orig| == done + |chunk| + 2 + |more|
    ensures Edited(orig, done + |chunk| + 2, Unescape(orig[..done]) + (chunk + ",") + more,
                   |Unescape(orig[..done])| + |chunk| + 1)
  {
    UnescapePast(orig, done, chunk, more);
    PastEscaped(orig, done, chunk, more);
    var u, next := Unescape(orig[..done]) + chunk, done + |chunk| + 2;
    assert u + "," == Unescape(orig[..done]) + (chunk + ",");
    EditedNext(orig, next, u, more);
  }

  /** Where the edited string splits, the original one does too. */
  lemma EditedSeparator(orig: string, done: nat, str: string, offset: nat, index: nat)
    requires Edited(orig, done, str, offset)
    requires CommaAt(str, offset, index)
    requires 0 < offset + index && str[offset + index - 1] != '\\'
    ensures 0 < done + index < |orig| && IsSeparator(orig, done + index)
    ensures forall i: nat :: i < done + index ==> !IsSeparator(orig, i)
  {
    var rest, k := orig[done..], done + index;
    assert str[offset..] == rest;
    NoSeparatorBefore(orig, done, index);
    assert orig[k] == rest[index] == ',';
    assert index > 0 ==> orig[k - 1] == rest[index - 1] == str[offset + index - 1];
  }

  lemma DropTwice(s: string, m: nat, k: nat)
    requires m + k <= |s|
    ensures s[m..][k..] == s[m + k..]
  {
  }

  /** The two sides of the split. */
  lemma EditedPieces(orig: string, done: nat, str: string, offset: nat, index: nat)
    requires Edited(orig, done, str, offset)
    requires offset + index < |str| && ',' !in str[offset..][..index]
    ensures done + index < |orig|
    ensures str[..offset + index] == Unescape(orig[..done + index])
    ensures str[offset + index + 1..] == orig[done + index + 1..]
  {
    var rest := orig[done..];
    var chunk, more := rest[..index], rest[index..];
    assert rest == chunk + more && str[offset..] == rest;
    UnescapeOn(orig, done, chunk, more);
    assert str[..offset + index] == str[..offset] + chunk;
    DropTwice(str, offset, index + 1);
    DropTwice(orig, done, index + 1);
  }

  lemma EditedSplit(orig: string, done: nat, str: string, offset: nat, index: nat)
    requires Edited(orig, done, str, offset)
    requires CommaAt(str, offset, index)
    requires 0 < offset + index && str[offset + index - 1] != '\\'
    ensures Tags(orig) == Tags(str[offset + index + 1..]) + [str[..offset + index]]
  {
    EditedPieces(orig, done, str, offset, index);
    EditedSeparator(orig, done, str, offset, index);
    SplitAtSeparator(orig, done + index);
  }

  lemma EditedEnd(orig: string, done: nat, str: string, offset: nat)
    requires orig != "" && Edited(orig, done, str, offset) && ',' !in str[offset..]
    ensures Tags(orig) == [str]
  {
    var rest := orig[done..];
    assert str[offset..] == rest && rest[..|rest|] == rest;
    NoSeparatorBefore(orig, done, |rest|);
    NoSeparatorTags(orig);
    assert rest == rest + "";
    UnescapeOn(orig, done, rest, "");
    assert orig[..|orig|] == orig && str == str[..offset] + rest;
  }

  lemma EditedStart(orig: string)
    ensures Edited(orig, 0, orig, 0)
  {
  }

  /** The edit of one iteration: the backslash goes, and the comma after it is behind the offset. */
  method CutEscape(str: string, offset: nat, index: nat, ghost orig: string, ghost done: nat) returns (edited: string)
    requires Edited(orig, done, str, offset) && CommaAt(str, offset, index)
    requires 0 < offset + index && str[offset + index - 1] == '\\'
    ensures |edited| == |str| - 1 && Edited(orig, done + index + 1, edited, offset + index)
  {
    EditedSkip(orig, done, str, offset, index);
    edited := str[..offset + index - 1] + str[offset + index..];
  }

  /** The loop of the parser, with its in-place edits and its moving offset: it ends at the first comma that
      separates, with the tag before it and the position after it in the edited string, or at the end. */
  method ScanTag(orig: string) returns (str: string, tag: string, next: nat)
    requires orig != "" && orig[0] != ','
    ensures |str| <= |orig| && next <= |str|
    ensures next == 0 ==> Tags(orig) == [tag]
    ensures next > 0 ==> Tags(orig) == Tags(str[next..]) + [tag]
  {
    var offset: nat := 0;
    ghost var done: nat := 0;
    str := orig;
    EditedStart(orig);
    while offset < |str|
      invariant Edited(orig, done, str, offset)
      invariant offset <= |str| <= |orig|
      invariant offset == 0 ==> str[0] != ','
      decreases |str| - offset
    {
      var index := FindComma(str, offset);
      if index == -1 {
        break;
      } else if !BackslashBefore(str, offset + index) {
        EditedSplit(orig, done, str, offset, index);
        return str, str[..offset + index], offset + index + 1;
      }
      str := CutEscape(str, offset, index, orig, done);
      offset := offset + index;
      done := done + index + 1;
    }
    EditedEnd(orig, done, str, offset);
    return str, str, 0;
  }

  /** The parser as written: one tag at a time, with recursion on the rest. */
  method RecParseEscapedComma(orig: string) returns (tags: seq<string>)
    ensures tags == Tags(orig)
    decreases |orig|
  {
    if |orig| == 0 {
      EmptyTags();
      return [];
    } else if orig[0] == ',' {
      LeadingSeparator(orig);
      tags := RecParseEscapedComma(orig[1..]);
      return;
    }
    var str, tag, next := ScanTag(orig);
    if next == 0 {
      return [tag];
    }
    var later := RecParseEscapedComma(str[next..]);
    return later + [tag];
  }

  function AllTags(tagParts: seq<string>): (tags: seq<string>)
  {
    if tagParts == [] then [] else AllTags(tagParts[..|tagParts| - 1]) + Tags(tagParts[|tagParts| - 1])
  }

  /** Concatenates the parses of its arguments. */
  method CombineTags(tagParts: seq<string>) returns (tags: seq<string>)
    ensures tags == AllTags(tagParts)
  {
    tags := [];
    for i := 0 to |tagParts|
      invariant tags == AllTags(tagParts[..i])
    {
      var parsed := RecParseEscapedComma(tagParts[i]);
      assert tagParts[..i + 1][..i] == tagParts[..i];
      tags := tags + parsed;
    }
    assert tagParts[..|tagParts|] == tagParts;
  }

  // ---------------------------------------------------------------- the printer

  /** Puts a backslash before every comma. */
  function Escape(t: string): (s: string)
  {
    if t == "" then ""
    else (if t[0] == ',' then "\\," else [t[0]]) + Escape(t[1..])
  }

  /** Escapes and joins with commas. */
  function Print(tags: seq<string>): (s: string)
  {
    if tags == [] then ""
    else if |tags| == 1 then Escape(tags[0])
    else Escape(tags[0]) + "," + Print(tags[1..])
  }

  function Reversed(tags: seq<string>): (r: seq<string>)
    ensures |r| == |tags|
  {
    if tags == [] then [] else Reversed(tags[1..]) + [tags[0]]
  }

  predicate EndsInBackslash(t: string)
  {
    t != "" && t[|t| - 1] == '\\'
  }

  /** No tag is empty, and none but the last ends in a backslash. */
  predicate Printable(tags: seq<string>)
  {
    && (forall i :: 0 <= i < |tags| ==> tags[i] != "")
    && (forall i :: 0 <= i < |tags| - 1 ==> !EndsInBackslash(tags[i]))
  }

  lemma {:induction false} UnescapeEscape(t: string)
    ensures Unescape(Escape(t)) == t
  {
    if t == "" {
    } else {
      UnescapeEscape(t[1..]);
      var rest := Escape(t[1..]);
      if t[0] == ',' {
        UnescapeConcat("\\,", rest);
        assert Unescape("\\,") == ",";
      } else {
        EscapeHead(t[1..]);
        UnescapeConcat([t[0]], rest);
      }
    }
  }

  lemma EscapeHead(t: string)
    ensures Escape(t) == "" <==> t == ""
    ensures t != "" ==> Escape(t)[0] != ','
  {
  }

  lemma {:induction false} EscapeLast(t: string)
    requires t != ""
    ensures Escape(t) != "" && Escape(t)[|Escape(t)| - 1] == t[|t| - 1]
  {
    if |t| == 1 {
      assert Escape(t[1..]) == "";
    } else {
      EscapeLast(t[1..]);
    }
  }

  lemma {:induction false} EscapeHasNoSeparator(t: string)
    ensures forall i: nat :: i < |Escape(t)| ==> !IsSeparator(Escape(t), i)
  {
    if t == "" {
    } else {
      EscapeHasNoSeparator(t[1..]);
      EscapeHead(t[1..]);
      var rest := Escape(t[1..]);
      var head := if t[0] == ',' then "\\," else [t[0]];
      forall i: nat | i < |Escape(t)|
        ensures !IsSeparator(Escape(t), i)
      {
        if i > |head| {
          assert !IsSeparator(rest, i - |head|);
        }
      }
    }
  }

  /** Joining a field that does not end in a backslash starts a new field. */
  lemma SplitJoin(field: string, rest: string)
    requires forall i: nat :: i < |field| ==> !IsSeparator(field, i)
    requires !EndsInBackslash(field)
    ensures Split(field + "," + rest) == [field] + Split(rest)
  {
    var s := field + "," + rest;
    assert forall i: nat :: i < |field| ==> (IsSeparator(s, i) <==> IsSeparator(field, i));
    FirstSeparatorIs(s, 0, |field|);
    assert s[..|field|] == field && s[|field| + 1..] == rest;
  }

  /** What stands before an escaped comma does not move the first separator after it. */
  lemma SeparatorAfterGlue(field: string, rest: string)
    requires forall i: nat :: i < |field| ==> !IsSeparator(field, i)
    requires EndsInBackslash(field)
    ensures FirstSeparator(field + "," + rest, 0) == |field| + 1 + FirstSeparator(rest, 0)
  {
    var s := field + "," + rest;
    var d := |field| + 1;
    var k := FirstSeparator(rest, 0);
    assert s[d - 1] == ',' && s[d - 2] == '\\';
    forall i: nat | i < d + k
      ensures !IsSeparator(s, i)
    {
      if i < |field| {
        assert !IsSeparator(field, i);
      } else if i >= d {
        assert !IsSeparator(rest, i - d);
        assert s[i] == rest[i - d] && (i > d ==> s[i - 1] == rest[i - d - 1]);
      }
    }
    if k < |rest| {
      assert s[d + k] == rest[k] && (k > 0 ==> s[d + k - 1] == rest[k - 1]);
    }
    FirstSeparatorIs(s, 0, d + k);
  }

  /** `n` is the number of fields. */
  predicate FieldCount(s: string, n: nat)
  {
    |Split(s)| == n
  }

  lemma CountOne(s: string)
    requires FirstSeparator(s, 0) == |s|
    ensures FieldCount(s, 1)
  {
  }

  lemma CountMore(s: string, k: nat, n: nat)
    requires k < |s| && FirstSeparator(s, 0) == k && FieldCount(s[k + 1..], n)
    ensures FieldCount(s, n + 1)
  {
  }

  lemma TailAfterGlue(field: string, rest: string, k: nat)
    requires k < |rest|
    ensures |field| + 1 + k < |field + "," + rest| && (field + "," + rest)[|field| + 1 + k + 1..] == rest[k + 1..]
  {
  }

  /** Joining a field that ends in a backslash glues the next field onto it. */
  lemma SplitGlued(field: string, rest: string)
    requires forall i: nat :: i < |field| ==> !IsSeparator(field, i)
    requires EndsInBackslash(field)
    ensures |Split(field + "," + rest)| == |Split(rest)|
  {
    SeparatorAfterGlue(field, rest);
    var k := FirstSeparator(rest, 0);
    if k < |rest| {
      TailAfterGlue(field, rest, k);
      CountMore(field + "," + rest, |field| + 1 + k, |Split(rest[k + 1..])|);
      CountMore(rest, k, |Split(rest[k + 1..])|);
    } else {
      CountOne(field + "," + rest);
      CountOne(rest);
    }
  }

  lemma {:induction false} ReversedTagsLength(fields: seq<string>)
    ensures |ReversedTags(fields)| <= |fields|
    ensures forall t :: t in ReversedTags(fields) ==> t != ""
  {
    if fields != [] {
      ReversedTagsLength(fields[1..]);
    }
  }

  lemma {:induction false} PrintedFieldCount(tags: seq<string>)
    requires tags != []
    ensures |Split(Print(tags))| <= |tags|
    ensures (exists i :: 0 <= i < |tags| - 1 && EndsInBackslash(tags[i])) ==> |Split(Print(tags))| < |tags|
  {
    var field := Escape(tags[0]);
    EscapeHasNoSeparator(tags[0]);
    if |tags| == 1 {
      FirstSeparatorIs(field, 0, |field|);
    } else {
      var rest := Print(tags[1..]);
      PrintedFieldCount(tags[1..]);
      assert forall i :: 0 < i < |tags| ==> tags[i] == tags[1..][i - 1];
      EscapeHead(tags[0]);
      if tags[0] != "" {
        EscapeLast(tags[0]);
      }
      if EndsInBackslash(tags[0]) {
        SplitGlued(field, rest);
      } else {
        SplitJoin(field, rest);
      }
    }
  }

  lemma {:induction false} PrintableRoundTrip(tags: seq<string>)
    requires Printable(tags)
    ensures Tags(Print(tags)) == Reversed(tags)
  {
    if tags == [] {
      assert Split("") == [""];
      assert ReversedTags([""]) == ReversedTags([]) + [];
    } else {
      var field := Escape(tags[0]);
      EscapeHasNoSeparator(tags[0]);
      EscapeLast(tags[0]);
      UnescapeEscape(tags[0]);
      if |tags| == 1 {
        NoSeparatorTags(field);
        assert tags[1..] == [] && Reversed(tags) == Reversed([]) + [tags[0]];
      } else {
        assert forall i :: 0 < i < |tags| ==> tags[i] == tags[1..][i - 1];
        PrintableRoundTrip(tags[1..]);
        var rest := Print(tags[1..]);
        SplitJoin(field, rest);
        assert ([field] + Split(rest))[1..] == Split(rest);
      }
    }
  }

  lemma {:induction false} ReversedMembers(tags: seq<string>, t: string)
    ensures t in Reversed(tags) <==> t in tags
  {
    if tags != [] {
      ReversedMembers(tags[1..], t);
    }
  }

  /** Printing and parsing gives the list back, reversed, for exactly the printable lists. */
  lemma TagRoundTrip(tags: seq<string>)
    ensures Tags(Print(tags)) == Reversed(tags) <==> Printable(tags)
  {
    if Printable(tags) {
      PrintableRoundTrip(tags);
    } else {
      ReversedTagsLength(Split(Print(tags)));
      if i :| 0 <= i < |tags| && tags[i] == "" {
        ReversedMembers(tags, tags[i]);
      } else {
        PrintedFieldCount(tags);
      }
    }
  }

  lemma {:induction false} EscapeSpelled(a: string, b: string)
    requires ',' !in a && ',' !in b
    ensures Escape(a) == a && Escape(a + "," + b) == a + "\\," + b
  {
    if a != "" {
      var s := a + "," + b;
      assert s[0] == a[0] && s[1..] == a[1..] + "," + b;
      EscapeSpelled(a[1..], b);
      assert [a[0]] + a[1..] == a;
      assert [a[0]] + (a[1..] + "\\," + b) == a + "\\," + b;
    } else {
      assert a + "," + b == "," + b && ("," + b)[1..] == b;
      PlainIsKept(b);
    }
  }

  lemma {:induction false} PlainIsKept(b: string)
    requires ',' !in b
    ensures Escape(b) == b
  {
    if b != "" {
      PlainIsKept(b[1..]);
      assert [b[0]] + b[1..] == b;
    }
  }

  /** In letters: a comma that follows a backslash belongs to its tag, any other comma ends one, and the last tag
      comes first. */
  lemma TagsSpelled(a: string, b: string, c: string)
    requires ',' !in a && ',' !in b && ',' !in c && c != "" && !EndsInBackslash(b)
    ensures Tags(a + "\\," + b + "," + c) == [c, a + "," + b]
  {
    var t := a + "," + b;
    EscapeSpelled(a, b);
    PlainIsKept(c);
    assert [t, c][1..] == [c] && Print([c]) == c;
    assert Print([t, c]) == a + "\\," + b + "," + c;
    assert t[|t| - 1] == if b == "" then ',' else b[|b| - 1];
    TagRoundTrip([t, c]);
    TwoReversed(t, c);
  }

  lemma TwoReversed(t: string, c: string)
    ensures Reversed([t, c]) == [c, t]
  {
    assert [t, c][1..] == [c] && [c][1..] == [] && Reversed([c]) == [c];
  }
}
