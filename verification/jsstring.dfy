/**
 * The JavaScript string built-ins the diagram core relies on
 * (`join`, `split` on one character, `trim`, `startsWith`, `endsWith`,
 * `indexOf`, `lastIndexOf`, a global one-character `replace`, and the
 * regular expressions of the form `/o(.*)c/`), stated over `seq<char>`.
 */
module JsString {
  import opened Wrappers

  /** `parts.join(sep)`. */
  function Join(parts: seq<string>, sep: string): string
    decreases |parts|
  {
    if |parts| == 0 then ""
    else if |parts| == 1 then parts[0]
    else parts[0] + sep + Join(parts[1..], sep)
  }

  /** `parts.join("")`. */
  function Concat(parts: seq<string>): (r: string)
    ensures parts == [] ==> r == ""
    decreases |parts|
  {
    if |parts| == 0 then "" else parts[0] + Concat(parts[1..])
  }

  lemma {:induction false} ConcatAppend(a: seq<string>, b: seq<string>)
    ensures Concat(a + b) == Concat(a) + Concat(b)
    decreases |a|
  {
    if a == [] {
      assert a + b == b;
    } else {
      assert (a + b)[1..] == a[1..] + b;
      ConcatAppend(a[1..], b);
    }
  }

  lemma JoinSingle(s: string, sep: string)
    ensures Join([s], sep) == s
  {
  }

  /** `s.startsWith(p)`. */
  predicate StartsWith(s: string, p: string) {
    |p| <= |s| && s[..|p|] == p
  }

  /** `s.endsWith(p)`. */
  predicate EndsWith(s: string, p: string) {
    |p| <= |s| && s[|s| - |p|..] == p
  }

  /** A string built as `a + b + c` starts with `a` and ends with `c`. */
  lemma Framed(a: string, b: string, c: string)
    ensures StartsWith(a + b + c, a) && EndsWith(a + b + c, c)
    ensures (a + b + c)[|a|..|a| + |b|] == b
  {
    assert (a + b + c)[..|a|] == a;
    assert (a + b + c)[|a|..|a| + |b|] == b;
    assert (a + b + c)[|a + b + c| - |c|..] == c;
  }

  /** `s.indexOf(c)` for a character known to occur: the first position of `c`. */
  function IndexOf(s: string, c: char): (i: nat)
    requires c in s
    ensures i < |s| && s[i] == c
    ensures forall k :: 0 <= k < i ==> s[k] != c
    decreases |s|
  {
    if s[0] == c then 0 else 1 + IndexOf(s[1..], c)
  }

  /** `s.lastIndexOf(c)` for a character known to occur: the last position of `c`. */
  function LastIndexOf(s: string, c: char): (i: nat)
    requires c in s
    ensures i < |s| && s[i] == c
    ensures forall k :: i < k < |s| ==> s[k] != c
    decreases |s|
  {
    if s[|s| - 1] == c then |s| - 1
    else
      assert c in s[..|s| - 1] by {
        var k :| 0 <= k < |s| && s[k] == c;
        assert s[..|s| - 1][k] == c;
      }
      LastIndexOf(s[..|s| - 1], c)
  }

  /** `s.split(sep)` for a one-character separator. */
  function Split(s: string, sep: char): (parts: seq<string>)
    ensures |parts| >= 1
    ensures forall i :: 0 <= i < |parts| ==> sep !in parts[i]
    decreases |s|
  {
    if sep !in s then [s]
    else
      var i := IndexOf(s, sep);
      [s[..i]] + Split(s[i + 1..], sep)
  }

  /** Joining the pieces of a split with the separator gives the string back. */
  lemma {:induction false} JoinSplit(s: string, sep: char)
    ensures Join(Split(s, sep), [sep]) == s
    decreases |s|
  {
    if sep in s {
      var i := IndexOf(s, sep);
      var rest := Split(s[i + 1..], sep);
      JoinSplit(s[i + 1..], sep);
      assert Split(s, sep) == [s[..i]] + rest;
      assert ([s[..i]] + rest)[1..] == rest;
      assert s == s[..i] + [sep] + s[i + 1..];
    }
  }

  /** Splitting a join of separator-free pieces gives the pieces back. */
  lemma {:induction false} SplitJoin(parts: seq<string>, sep: char)
    requires |parts| >= 1
    requires forall i :: 0 <= i < |parts| ==> sep !in parts[i]
    ensures Split(Join(parts, [sep]), sep) == parts
    decreases |parts|
  {
    if |parts| > 1 {
      var rest := parts[1..];
      assert Join(parts, [sep]) == parts[0] + [sep] + Join(rest, [sep]);
      SplitAtFirst(parts[0], Join(rest, [sep]), sep);
      assert forall i :: 0 <= i < |rest| ==> rest[i] == parts[i + 1];
      SplitJoin(rest, sep);
      assert [parts[0]] + rest == parts;
    }
  }

  /** A separator-free piece followed by the separator splits off as the first part. */
  lemma SplitAtFirst(head: string, rest: string, sep: char)
    requires sep !in head
    ensures Split(head + [sep] + rest, sep) == [head] + Split(rest, sep)
  {
    var s := head + [sep] + rest;
    assert s[|head|] == sep;
    assert forall k :: 0 <= k < |head| ==> s[k] == head[k];
    IndexOfUnique(s, sep, |head|);
    assert s[..|head|] == head;
    assert s[|head| + 1..] == rest;
  }

  /** A string without the separator splits into itself alone. */
  lemma SplitNoSeparator(s: string, sep: char)
    requires sep !in s
    ensures Split(s, sep) == [s]
  {
  }

  /**
   * The characters `String.prototype.trim` removes: ECMAScript WhiteSpace
   * (tab, vertical tab, form feed, space, no-break space, byte order mark and
   * every Unicode space separator) and LineTerminator.
   */
  predicate IsJsWhitespace(ch: char) {
    ch == '\t' || ch == '\n' || ch == '\U{B}' || ch == '\U{C}' || ch == '\r' || ch == ' '
    || ch == '\U{A0}' || ch == '\U{1680}' || ('\U{2000}' <= ch <= '\U{200A}')
    || ch == '\U{2028}' || ch == '\U{2029}' || ch == '\U{202F}' || ch == '\U{205F}'
    || ch == '\U{3000}' || ch == '\U{FEFF}'
  }

  /** The characters the regular-expression `.` does not match. */
  predicate IsLineTerminator(ch: char) {
    ch == '\n' || ch == '\r' || ch == '\U{2028}' || ch == '\U{2029}'
  }

  function TrimStart(s: string): (r: string)
    ensures |r| <= |s| && r == s[|s| - |r|..]
    ensures r == [] || !IsJsWhitespace(r[0])
    ensures forall i :: 0 <= i < |s| - |r| ==> IsJsWhitespace(s[i])
    decreases |s|
  {
    if |s| > 0 && IsJsWhitespace(s[0]) then TrimStart(s[1..]) else s
  }

  function TrimEnd(s: string): (r: string)
    ensures |r| <= |s| && r == s[..|r|]
    ensures r == [] || !IsJsWhitespace(r[|r| - 1])
    ensures forall i :: |r| <= i < |s| ==> IsJsWhitespace(s[i])
    decreases |s|
  {
    if |s| > 0 && IsJsWhitespace(s[|s| - 1]) then TrimEnd(s[..|s| - 1]) else s
  }

  /** `r` is `s[i..i + |r|]` and everything outside it is whitespace. */
  ghost predicate TrimmedAt(s: string, r: string, i: int) {
    && 0 <= i <= |s| - |r| && r == s[i..i + |r|]
    && (forall k :: 0 <= k < i ==> IsJsWhitespace(s[k]))
    && (forall k :: i + |r| <= k < |s| ==> IsJsWhitespace(s[k]))
  }

  /**
   * `s.trim()`: the result is a contiguous piece of `s` that neither starts nor
   * ends with whitespace, and everything cut away on either side is whitespace.
   */
  function Trim(s: string): (r: string)
    ensures |r| <= |s|
    ensures r == [] || !IsJsWhitespace(r[|r| - 1])
  {
    TrimEnd(TrimStart(s))
  }

  lemma {:induction false} TrimIsTrim(s: string)
    ensures exists i :: TrimmedAt(s, Trim(s), i)
    ensures Trim(s) == [] || !IsJsWhitespace(Trim(s)[0])
  {
    var t := TrimStart(s);
    var r := TrimEnd(t);
    var i := |s| - |t|;
    assert Trim(s) == r;
    CutAround(s, t, r, i, IsJsWhitespace);
    assert r != [] ==> r[0] == t[0];
    assert TrimmedAt(s, r, i);
  }

  /** A prefix of a suffix is a slice, and what follows it in the suffix follows it in the whole. */
  lemma {:induction false} CutAround(s: string, t: string, r: string, i: nat, cut: char -> bool)
    requires i <= |s| && t == s[i..] && |r| <= |t| && r == t[..|r|]
    requires forall k :: |r| <= k < |t| ==> cut(t[k])
    ensures r == s[i..i + |r|]
    ensures forall k :: i + |r| <= k < |s| ==> cut(s[k])
  {
    forall k | i + |r| <= k < |s|
      ensures cut(s[k])
    {
      assert s[k] == t[k - i];
    }
  }

  /** `s.replace(/c/g, rep)`: every occurrence of `c` replaced by `rep`. */
  function ReplaceAll(s: string, c: char, rep: string): (r: string)
    ensures c !in rep ==> c !in r
    decreases |s|
  {
    if s == [] then ""
    else (if s[0] == c then rep else [s[0]]) + ReplaceAll(s[1..], c, rep)
  }

  /** Replacing a character that does not occur changes nothing. */
  lemma {:induction false} ReplaceAllAbsent(s: string, c: char, rep: string)
    requires c !in s
    ensures ReplaceAll(s, c, rep) == s
    decreases |s|
  {
    if s != [] {
      ReplaceAllAbsent(s[1..], c, rep);
    }
  }

  /** `ReplaceAll` distributes over concatenation. */
  lemma {:induction false} ReplaceAllAppend(a: string, b: string, c: char, rep: string)
    ensures ReplaceAll(a + b, c, rep) == ReplaceAll(a, c, rep) + ReplaceAll(b, c, rep)
    decreases |a|
  {
    if a == [] {
      assert a + b == b;
    } else {
      assert (a + b)[0] == a[0];
      assert (a + b)[1..] == a[1..] + b;
      ReplaceAllAppend(a[1..], b, c, rep);
    }
  }

  /** The longest prefix of `s` without a line terminator. */
  function UpToTerminator(s: string): (r: string)
    ensures |r| <= |s| && r == s[..|r|]
    ensures forall k :: 0 <= k < |r| ==> !IsLineTerminator(r[k])
    ensures |r| < |s| ==> IsLineTerminator(s[|r|])
    decreases |s|
  {
    if s == [] || IsLineTerminator(s[0]) then "" else [s[0]] + UpToTerminator(s[1..])
  }

  predicate NoLineTerminator(s: string) {
    forall k :: 0 <= k < |s| ==> !IsLineTerminator(s[k])
  }

  lemma {:induction false} UpToTerminatorWhole(s: string)
    requires NoLineTerminator(s)
    ensures UpToTerminator(s) == s
    decreases |s|
  {
    if s != [] {
      UpToTerminatorWhole(s[1..]);
    }
  }

  /**
   * Capture group 1 of `/o(.*)c/.exec(s)`: the match starts at the leftmost
   * `o` that has a `c` after it on the same line, and the greedy `.*` runs to
   * the last `c` before the next line terminator. On input without line
   * terminators, `DelimitedGroupOnOneLine` gives the group exactly: the text
   * between the first `o` and the last `c`, present exactly when a `c`
   * follows the first `o`.
   */
  function DelimitedGroup(s: string, o: char, c: char): (r: Option<string>)
    ensures o !in s ==> r.None?
    ensures r.Some? ==> |r.value| + 2 <= |s|
    decreases |s|
  {
    if s == [] then None
    else if s[0] == o && c in UpToTerminator(s[1..]) then
      var line := UpToTerminator(s[1..]);
      Some(line[..LastIndexOf(line, c)])
    else DelimitedGroup(s[1..], o, c)
  }

  /**
   * On a single line the group is the text between the first `o` and the last
   * `c`, and it exists exactly when some `c` follows the first `o`.
   */
  lemma {:induction false} DelimitedGroupOnOneLine(s: string, o: char, c: char)
    requires NoLineTerminator(s)
    ensures DelimitedGroup(s, o, c).Some? <==> (o in s && c in s[IndexOf(s, o) + 1..])
    ensures DelimitedGroup(s, o, c).Some? ==>
      DelimitedGroup(s, o, c).value == s[IndexOf(s, o) + 1..LastIndexOf(s, c)]
    decreases |s|
  {
    if s != [] {
      UpToTerminatorWhole(s[1..]);
      if s[0] == o {
        DelimitedGroupAtOpen(s, o, c);
      } else {
        DelimitedGroupOnOneLine(s[1..], o, c);
        DelimitedGroupSkip(s, o, c);
        DelimitersInTail(s, o, c);
      }
    }
  }

  lemma DelimitedGroupAtOpen(s: string, o: char, c: char)
    requires NoLineTerminator(s) && s != [] && s[0] == o
    requires UpToTerminator(s[1..]) == s[1..]
    ensures DelimitedGroup(s, o, c).Some? <==> (o in s && c in s[IndexOf(s, o) + 1..])
    ensures DelimitedGroup(s, o, c).Some? ==>
      DelimitedGroup(s, o, c).value == s[IndexOf(s, o) + 1..LastIndexOf(s, c)]
  {
    assert IndexOf(s, o) == 0;
    if c in s[1..] {
      var j := LastIndexOf(s[1..], c);
      assert s[j + 1] == c;
      LastIndexOfUnique(s, c, j + 1);
      assert s[1..][..j] == s[1..j + 1];
    } else {
      DelimitedGroupWithoutClose(s[1..], o, c);
    }
  }

  /** Without a closing character there is no match. */
  lemma {:induction false} DelimitedGroupWithoutClose(s: string, o: char, c: char)
    requires c !in s
    ensures DelimitedGroup(s, o, c) == None
    decreases |s|
  {
    if s != [] {
      var line := UpToTerminator(s[1..]);
      assert forall k :: 0 <= k < |line| ==> line[k] == s[k + 1];
      DelimitedGroupWithoutClose(s[1..], o, c);
    }
  }

  /** Past a first character that is not the opening one, the search goes on in the tail. */
  lemma DelimitedGroupSkip(s: string, o: char, c: char)
    requires s != [] && s[0] != o
    ensures DelimitedGroup(s, o, c) == DelimitedGroup(s[1..], o, c)
  {
  }

  /** The first opening character and the last closing one, seen from the tail. */
  lemma {:induction false} DelimitersInTail(s: string, o: char, c: char)
    requires s != [] && s[0] != o
    ensures (o in s && c in s[IndexOf(s, o) + 1..]) <==> (o in s[1..] && c in s[1..][IndexOf(s[1..], o) + 1..])
    ensures o in s && c in s[IndexOf(s, o) + 1..] ==>
      s[IndexOf(s, o) + 1..LastIndexOf(s, c)] == s[1..][IndexOf(s[1..], o) + 1..LastIndexOf(s[1..], c)]
  {
    NotInTail(s, o);
    if o in s {
      IndexOfTail(s, o);
      if c in s[IndexOf(s, o) + 1..] {
        GroupInTail(s, o, c);
      }
    }
  }

  /** The group between the delimiters is the same slice, seen from the tail. */
  lemma {:induction false} GroupInTail(s: string, o: char, c: char)
    requires s != [] && s[0] != o && o in s && c in s[IndexOf(s, o) + 1..]
    ensures o in s[1..] && c in s[1..] && IndexOf(s[1..], o) + 1 <= LastIndexOf(s[1..], c)
    ensures s[IndexOf(s, o) + 1..LastIndexOf(s, c)] == s[1..][IndexOf(s[1..], o) + 1..LastIndexOf(s[1..], c)]
  {
    IndexOfTail(s, o);
    var i := IndexOf(s[1..], o);
    LastAfter(s[1..], c, i + 1);
    LastIndexOfTail(s, c);
    SliceOfTail(s, i + 1, LastIndexOf(s[1..], c));
  }

  /** A character missing from the tail is missing altogether unless it comes first. */
  lemma {:induction false} NotInTail(s: string, o: char)
    requires s != [] && s[0] != o
    ensures o in s <==> o in s[1..]
  {
    if o in s {
      var k :| 0 <= k < |s| && s[k] == o;
      assert s[1..][k - 1] == o;
    }
  }

  /** A `c` at or after position `lo` puts the last `c` at or after `lo`. */
  lemma {:induction false} LastAfter(t: string, c: char, lo: nat)
    requires lo <= |t| && c in t[lo..]
    ensures c in t && lo <= LastIndexOf(t, c)
  {
    var k :| 0 <= k < |t| - lo && t[lo..][k] == c;
    assert t[lo + k] == c;
  }

  /** Slices of the tail are slices of the whole, one position on. */
  lemma {:induction false} SliceOfTail(s: string, lo: nat, hi: nat)
    requires s != [] && lo <= hi <= |s| - 1
    ensures s[lo + 1..hi + 1] == s[1..][lo..hi] && s[lo + 1..] == s[1..][lo..]
  {
    assert forall k :: 0 <= k < hi - lo ==> s[lo + 1..hi + 1][k] == s[1..][lo..hi][k];
    assert forall k :: 0 <= k < |s| - 1 - lo ==> s[lo + 1..][k] == s[1..][lo..][k];
  }

  /** Past a first character that is not `c`, the first `c` is one further along than in the tail. */
  lemma {:induction false} IndexOfTail(s: string, c: char)
    requires s != [] && s[0] != c && c in s
    ensures c in s[1..] && IndexOf(s, c) == IndexOf(s[1..], c) + 1
    ensures s[IndexOf(s, c) + 1..] == s[1..][IndexOf(s[1..], c) + 1..]
  {
    var k :| 0 <= k < |s| && s[k] == c;
    assert s[1..][k - 1] == c;
  }

  /** A `c` in the tail makes the last `c` one further along than in the tail. */
  lemma {:induction false} LastIndexOfTail(s: string, c: char)
    requires s != [] && c in s[1..]
    ensures c in s && LastIndexOf(s, c) == LastIndexOf(s[1..], c) + 1
  {
    var j := LastIndexOf(s[1..], c);
    assert s[j + 1] == c;
    LastIndexOfUnique(s, c, j + 1);
  }

  lemma IndexOfUnique(s: string, c: char, i: nat)
    requires i < |s| && s[i] == c
    requires forall k :: 0 <= k < i ==> s[k] != c
    ensures IndexOf(s, c) == i
  {
  }

  lemma LastIndexOfUnique(s: string, c: char, i: nat)
    requires i < |s| && s[i] == c
    requires forall k :: i < k < |s| ==> s[k] != c
    ensures LastIndexOf(s, c) == i
  {
  }
}
