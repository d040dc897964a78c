/** Option, shared by the modules below. */
module Wrappers {
  datatype Option<+T> = None | Some(value: T)
}

module Sequences {
  predicate Distinct<T(==)>(s: seq<T>) {
    forall i, j | 0 <= i < j < |s| :: s[i] != s[j]
  }
}

/** Text as the bytes of its UTF-8 form. */
module ByteText {
  type Byte = b: int | 0 <= b < 256
  type Bytes = seq<Byte>
}

/** Unicode text, as far as more than one module needs it. */
module Text {
  /** The Unicode White_Space property. */
  predicate IsWhitespace(c: char) {
    var n := c as int;
    || 0x09 <= n <= 0x0D || n == 0x20 || n == 0x85 || n == 0xA0 || n == 0x1680 || 0x2000 <= n <= 0x200A
    || n == 0x2028 || n == 0x2029 || n == 0x202F || n == 0x205F || n == 0x3000
  }

  function TrimEnd(s: string): string {
    if s != "" && IsWhitespace(s[|s| - 1]) then TrimEnd(s[..|s| - 1]) else s
  }

  /** The 25 characters of the White_Space property, one by one. */
  lemma WhitespaceIs(c: char)
    ensures IsWhitespace(c) <==>
            c as int in {0x9, 0xA, 0xB, 0xC, 0xD, 0x20, 0x85, 0xA0, 0x1680, 0x2000, 0x2001, 0x2002, 0x2003, 0x2004,
                         0x2005, 0x2006, 0x2007, 0x2008, 0x2009, 0x200A, 0x2028, 0x2029, 0x202F, 0x205F, 0x3000}
  {
  }

  predicate Blank(s: string) {
    forall i | 0 <= i < |s| :: IsWhitespace(s[i])
  }

  /** What is trimmed is white space, and all of it. */
  lemma {:induction false} TrimEndIs(s: string)
    ensures TrimEnd(s) <= s && Blank(s[|TrimEnd(s)|..])
    ensures TrimEnd(s) == "" || !IsWhitespace(TrimEnd(s)[|TrimEnd(s)| - 1])
    decreases |s|
  {
    if s != "" && IsWhitespace(s[|s| - 1]) {
      var init := s[..|s| - 1];
      TrimEndIs(init);
      assert s[|TrimEnd(init)|..] == init[|TrimEnd(init)|..] + [s[|s| - 1]];
    }
  }

  /** So any text comes back from behind any white space, if it does not itself end in some. */
  lemma {:induction false} TrimEndAppend(text: string, space: string)
    requires Blank(space) && (text == "" || !IsWhitespace(text[|text| - 1]))
    ensures TrimEnd(text + space) == text
    decreases |space|
  {
    var s := text + space;
    if space == "" {
      assert s == text;
    } else {
      assert s[..|s| - 1] == text + space[..|space| - 1] && s[|s| - 1] == space[|space| - 1];
      TrimEndAppend(text, space[..|space| - 1]);
    }
  }

  predicate StartsWith(s: string, prefix: string) {
    |s| >= |prefix| && s[..|prefix|] == prefix
  }

  function Unlines(lines: seq<string>): string {
    if lines == [] then "" else lines[0] + "\n" + Unlines(lines[1..])
  }

  predicate Contains(text: string, part: string) {
    exists k | 0 <= k <= |text| :: OccursAt(text, part, k)
  }

  predicate OccursAt(text: string, part: string, k: nat) {
    k + |part| <= |text| && text[k..k + |part|] == part
  }

  lemma ContainsPart(before: string, part: string, after: string)
    ensures Contains(before + part + after, part)
  {
    assert OccursAt(before + part + after, part, |before|);
  }

  lemma ContainsSplit(text: string, part: string) returns (before: string, after: string)
    requires Contains(text, part)
    ensures text == before + part + after
  {
    var k :| 0 <= k <= |text| && OccursAt(text, part, k);
    before, after := text[..k], text[k + |part|..];
  }

  lemma ContainsTrans(text: string, part: string, inner: string)
    requires Contains(text, part) && Contains(part, inner)
    ensures Contains(text, inner)
  {
    var k :| 0 <= k <= |text| && OccursAt(text, part, k);
    var l :| 0 <= l <= |part| && OccursAt(part, inner, l);
    assert text == text[..k] + part + text[k + |part|..];
    assert part == part[..l] + inner + part[l + |inner|..];
    assert OccursAt(text, inner, k + l);
  }
}

/**
  Cutting a growing buffer into lines.  A streaming reader repeatedly looks for the separator, takes the line before it
  and keeps the remainder; `Complete` and `Rest` are what that loop has taken and kept.
 */
module Lines {

  /** The position of the first `x`, or `|s|`. */
  function Find<T(==)>(s: seq<T>, x: T): (i: nat)
    ensures i <= |s|
  {
    FindFrom(s, x, 0)
  }

  function FindFrom<T(==)>(s: seq<T>, x: T, start: nat): (i: nat)
    requires start <= |s|
    ensures start <= i <= |s|
    decreases |s| - start
  {
    if start == |s| || s[start] == x then start else FindFrom(s, x, start + 1)
  }

  lemma {:induction false} FindFromFirst<T>(s: seq<T>, x: T, start: nat)
    requires start <= |s|
    ensures var i := FindFrom(s, x, start);
            (i < |s| ==> s[i] == x) && forall k | start <= k < i :: s[k] != x
    decreases |s| - start
  {
    if start < |s| && s[start] != x {
      FindFromFirst(s, x, start + 1);
    }
  }

  lemma FindFirst<T>(s: seq<T>, x: T)
    ensures var i := Find(s, x);
            (i < |s| ==> s[i] == x) && (forall k | 0 <= k < i :: s[k] != x) && x !in s[..i]
  {
    FindFromFirst(s, x, 0);
  }

  function Complete<T(==)>(s: seq<T>, x: T): seq<seq<T>>
    decreases |s|
  {
    var i := Find(s, x);
    if i == |s| then [] else [s[..i]] + Complete(s[i + 1..], x)
  }

  function Rest<T(==)>(s: seq<T>, x: T): seq<T>
    decreases |s|
  {
    var i := Find(s, x);
    if i == |s| then s else Rest(s[i + 1..], x)
  }

  /** What is left of the buffer after its first `n` complete lines. */
  function DropLines<T(==)>(s: seq<T>, x: T, n: nat): seq<T>
    requires n <= |Complete(s, x)|
  {
    if n == 0 then s else DropLines(s[Find(s, x) + 1..], x, n - 1)
  }

  /** All parts between separators, as many as there are separators plus one. */
  function Split<T(==)>(s: seq<T>, x: T): seq<seq<T>> {
    Complete(s, x) + [Rest(s, x)]
  }

  function Join<T>(parts: seq<seq<T>>, separator: seq<T>): seq<T> {
    if parts == [] then []
    else if |parts| == 1 then parts[0]
    else parts[0] + separator + Join(parts[1..], separator)
  }

  /** The line without one `x` at its end. */
  function StripEnd<T(==)>(line: seq<T>, x: T): seq<T> {
    if line != [] && line[|line| - 1] == x then line[..|line| - 1] else line
  }

  function Concat<T>(parts: seq<seq<T>>): seq<T> {
    if parts == [] then [] else parts[0] + Concat(parts[1..])
  }

  lemma FindAppend<T>(line: seq<T>, x: T, more: seq<T>)
    requires x !in line
    ensures Find(line + [x] + more, x) == |line|
    ensures (line + [x] + more)[..|line|] == line
    ensures (line + [x] + more)[|line| + 1..] == more
  {
    var s := line + [x] + more;
    FindFirst(s, x);
    assert s[|line|] == x;
    assert forall k | 0 <= k < |line| :: s[k] == line[k];
  }

  lemma FindPrefix<T>(s: seq<T>, x: T, more: seq<T>)
    requires Find(s, x) < |s|
    ensures Find(s + more, x) == Find(s, x)
    ensures var i := Find(s, x); (s + more)[..i] == s[..i] && (s + more)[i + 1..] == s[i + 1..] + more
  {
    var i := Find(s, x);
    FindFirst(s, x);
    assert s + more == s[..i] + [x] + (s[i + 1..] + more);
    FindAppend(s[..i], x, s[i + 1..] + more);
  }

  lemma FindNone<T>(s: seq<T>, x: T)
    ensures Find(s, x) == |s| <==> x !in s
  {
    FindFirst(s, x);
  }

  /** Reading can stop anywhere: what was kept goes in front of what comes next. */
  lemma {:induction false} LinesAppend<T>(a: seq<T>, b: seq<T>, x: T)
    ensures Complete(a + b, x) == Complete(a, x) + Complete(Rest(a, x) + b, x)
    ensures Rest(a + b, x) == Rest(Rest(a, x) + b, x)
    decreases |a|
  {
    var i := Find(a, x);
    if i < |a| {
      FindPrefix(a, x, b);
      LinesAppend(a[i + 1..], b, x);
    }
  }

  lemma LinesNext<T>(s: seq<T>, x: T)
    requires Find(s, x) < |s|
    ensures Complete(s, x) == [s[..Find(s, x)]] + Complete(s[Find(s, x) + 1..], x)
    ensures Complete(s, x)[1..] == Complete(s[Find(s, x) + 1..], x)
    ensures Rest(s, x) == Rest(s[Find(s, x) + 1..], x)
  {
  }

  /** One complete line in front. */
  lemma LinesCons<T>(line: seq<T>, x: T, more: seq<T>)
    requires x !in line
    ensures Complete(line + [x] + more, x) == [line] + Complete(more, x)
    ensures Rest(line + [x] + more, x) == Rest(more, x)
  {
    FindAppend(line, x, more);
  }

  lemma LinesNone<T>(s: seq<T>, x: T)
    requires x !in s
    ensures Complete(s, x) == [] && Rest(s, x) == s
  {
    FindNone(s, x);
  }

  lemma {:induction false} RestIsUnfinished<T>(s: seq<T>, x: T)
    ensures x !in Rest(s, x)
    decreases |s|
  {
    FindNone(s, x);
    if Find(s, x) < |s| {
      RestIsUnfinished(s[Find(s, x) + 1..], x);
    }
  }

  /** No part of a split holds the separator. */
  lemma {:induction false} SplitParts<T>(s: seq<T>, x: T)
    ensures forall p | p in Split(s, x) :: x !in p
    decreases |s|
  {
    var i := Find(s, x);
    FindNone(s, x);
    if i < |s| {
      FindFirst(s, x);
      SplitParts(s[i + 1..], x);
      assert Split(s, x) == [s[..i]] + Split(s[i + 1..], x);
    }
  }

  lemma {:induction false} JoinSplit<T>(s: seq<T>, x: T)
    ensures Join(Split(s, x), [x]) == s
    decreases |s|
  {
    var i := Find(s, x);
    if i < |s| {
      FindFirst(s, x);
      JoinSplit(s[i + 1..], x);
      assert Split(s, x) == [s[..i]] + Split(s[i + 1..], x);
      assert Split(s, x)[1..] == Split(s[i + 1..], x);
      assert s == s[..i] + [x] + s[i + 1..];
    }
  }

  lemma {:induction false} ConcatAppend<T>(a: seq<seq<T>>, b: seq<seq<T>>)
    ensures Concat(a + b) == Concat(a) + Concat(b)
  {
    if a == [] {
      assert a + b == b;
    } else {
      assert (a + b)[0] == a[0] && (a + b)[1..] == a[1..] + b;
      ConcatAppend(a[1..], b);
    }
  }

  lemma AppendAssoc<T>(a: seq<T>, b: seq<T>, c: seq<T>)
    ensures a + b + c == a + (b + c)
  {
  }

  /** Lines taken one after the other. */
  function Fold<S, L>(f: (S, L) -> S, s: S, lines: seq<L>): S
    decreases |lines|
  {
    if lines == [] then s else Fold(f, f(s, lines[0]), lines[1..])
  }

  lemma {:induction false} FoldAppend<S, L>(f: (S, L) -> S, s: S, a: seq<L>, b: seq<L>)
    ensures Fold(f, s, a + b) == Fold(f, Fold(f, s, a), b)
    decreases |a|
  {
    if a == [] {
      assert a + b == b;
    } else {
      assert (a + b)[0] == a[0] && (a + b)[1..] == a[1..] + b;
      FoldAppend(f, f(s, a[0]), a[1..], b);
    }
  }
}
