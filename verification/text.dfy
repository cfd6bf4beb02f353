/** Strings: trimming, splitting and joining. */
module Text {
  /** The characters of the Unicode property White_Space. */
  predicate IsWhitespace(c: char) {
    || '\U{9}' <= c <= '\U{D}' || c == ' ' || c == '\U{85}' || c == '\U{A0}' || c == '\U{1680}'
    || '\U{2000}' <= c <= '\U{200A}' || c == '\U{2028}' || c == '\U{2029}' || c == '\U{202F}'
    || c == '\U{205F}' || c == '\U{3000}'
  }

  predicate IsBlank(s: string) {
    forall i | 0 <= i < |s| :: IsWhitespace(s[i])
  }

  function TrimStart(s: string): (r: string)
    ensures |r| <= |s| && (r != [] ==> !IsWhitespace(r[0]))
  {
    if s != [] && IsWhitespace(s[0]) then TrimStart(s[1..]) else s
  }

  function TrimEnd(s: string): (r: string)
    ensures r <= s && (r != [] ==> !IsWhitespace(r[|r| - 1]))
  {
    if s != [] && IsWhitespace(s[|s| - 1]) then TrimEnd(s[..|s| - 1]) else s
  }

  function Trim(s: string): string {
    TrimEnd(TrimStart(s))
  }

  /** Nothing is left exactly when there was only whitespace. */
  lemma {:induction false} TrimIsEmpty(s: string)
    ensures Trim(s) == [] <==> IsBlank(s)
  {
    if s != [] {
      if IsWhitespace(s[0]) {
        TrimIsEmpty(s[1..]);
        assert forall i | 0 <= i < |s| :: s[i] == if i == 0 then s[0] else s[1..][i - 1];
      } else {
        KeepsFirst(s);
      }
    }
  }

  lemma {:induction false} KeepsFirst(s: string)
    requires s != [] && !IsWhitespace(s[0])
    ensures TrimEnd(s) != []
  {
    if |s| > 1 && IsWhitespace(s[|s| - 1]) {
      KeepsFirst(s[..|s| - 1]);
    }
  }

  lemma {:induction false} TrimStartCuts(s: string) returns (head: string)
    ensures s == head + TrimStart(s) && IsBlank(head)
  {
    head := [];
    if s != [] && IsWhitespace(s[0]) {
      var rest := TrimStartCuts(s[1..]);
      head := [s[0]] + rest;
      assert s == [s[0]] + s[1..];
    }
  }

  lemma {:induction false} TrimEndCuts(s: string) returns (tail: string)
    ensures s == TrimEnd(s) + tail && IsBlank(tail)
  {
    tail := [];
    if s != [] && IsWhitespace(s[|s| - 1]) {
      var rest := TrimEndCuts(s[..|s| - 1]);
      tail := rest + [s[|s| - 1]];
      assert s == s[..|s| - 1] + [s[|s| - 1]];
    }
  }

  /** Trimming takes whitespace off both ends, and what is left begins and ends with something else. */
  lemma TrimIsCore(s: string) returns (head: string, tail: string)
    ensures s == head + Trim(s) + tail && IsBlank(head) && IsBlank(tail)
    ensures Trim(s) != [] ==> !IsWhitespace(Trim(s)[0]) && !IsWhitespace(Trim(s)[|Trim(s)| - 1])
  {
    head := TrimStartCuts(s);
    tail := TrimEndCuts(TrimStart(s));
    assert head + (Trim(s) + tail) == head + Trim(s) + tail;
  }

  /** The pieces between the separators; always at least one. */
  function Split<T(==)>(s: seq<T>, c: T): (r: seq<seq<T>>)
    ensures r != []
  {
    if s == [] then [[]]
    else
      var rest := Split(s[1..], c);
      if s[0] == c then [[]] + rest else [[s[0]] + rest[0]] + rest[1..]
  }

  function Join<T>(parts: seq<seq<T>>, c: T): seq<T> {
    if parts == [] then []
    else if |parts| == 1 then parts[0]
    else parts[0] + [c] + Join(parts[1..], c)
  }

  /** A piece without the separator in front of a separator comes back as the first piece. */
  lemma {:induction false} SplitFirst<T>(part: seq<T>, rest: seq<T>, c: T)
    requires c !in part
    ensures Split(part + [c] + rest, c) == [part] + Split(rest, c)
  {
    if part == [] {
      assert part + [c] + rest == [c] + rest;
      assert ([c] + rest)[1..] == rest;
    } else {
      SplitFirst(part[1..], rest, c);
      assert (part + [c] + rest)[1..] == part[1..] + [c] + rest;
      assert [part[0]] + part[1..] == part;
    }
  }

  /** The pieces of two strings with a separator between them. */
  lemma {:induction false} SplitAtSeparator<T>(a: seq<T>, b: seq<T>, c: T)
    ensures Split(a + [c] + b, c) == Split(a, c) + Split(b, c)
  {
    if a == [] {
      assert a + [c] + b == [c] + b && ([c] + b)[1..] == b;
    } else {
      SplitAtSeparator(a[1..], b, c);
      assert (a + [c] + b)[1..] == a[1..] + [c] + b && (a + [c] + b)[0] == a[0];
      GrowFirst(a[0], Split(a[1..], c), Split(b, c));
      assert [[]] + (Split(a[1..], c) + Split(b, c)) == ([[]] + Split(a[1..], c)) + Split(b, c);
    }
  }

  lemma GrowFirst<T>(x: T, first: seq<seq<T>>, rest: seq<seq<T>>)
    requires first != []
    ensures [[x] + (first + rest)[0]] + (first + rest)[1..] == ([[x] + first[0]] + first[1..]) + rest
  {
  }

  lemma {:induction false} SplitWhole<T>(part: seq<T>, c: T)
    requires c !in part
    ensures Split(part, c) == [part]
  {
    if part != [] {
      SplitWhole(part[1..], c);
      assert [part[0]] + part[1..] == part;
    }
  }

  /** Splitting undoes joining when no piece holds the separator. */
  lemma {:induction false} SplitUndoesJoin<T>(parts: seq<seq<T>>, c: T)
    requires parts != [] && forall i | 0 <= i < |parts| :: c !in parts[i]
    ensures Split(Join(parts, c), c) == parts
  {
    if |parts| == 1 {
      SplitWhole(parts[0], c);
    } else {
      SplitUndoesJoin(parts[1..], c);
      SplitFirst(parts[0], Join(parts[1..], c), c);
    }
  }

  /** A separator in front opens an empty piece. */
  lemma JoinAfterSeparator<T>(rest: seq<seq<T>>, c: T)
    requires rest != []
    ensures Join([[]] + rest, c) == [c] + Join(rest, c)
  {
    assert ([[]] + rest)[1..] == rest;
  }

  /** An element in front goes to the first piece. */
  lemma JoinAfterElement<T>(x: T, rest: seq<seq<T>>, c: T)
    requires rest != []
    ensures Join([[x] + rest[0]] + rest[1..], c) == [x] + Join(rest, c)
  {
    var pieces := [[x] + rest[0]] + rest[1..];
    if |rest| > 1 {
      assert pieces[1..] == rest[1..];
      assert [x] + (rest[0] + [c] + Join(rest[1..], c)) == ([x] + rest[0]) + [c] + Join(rest[1..], c);
    }
  }

  /** Joining undoes splitting, and no piece holds the separator. */
  lemma {:induction false} JoinUndoesSplit<T>(s: seq<T>, c: T)
    ensures Join(Split(s, c), c) == s
    ensures forall i | 0 <= i < |Split(s, c)| :: c !in Split(s, c)[i]
  {
    if s != [] {
      var rest := Split(s[1..], c);
      JoinUndoesSplit(s[1..], c);
      assert [s[0]] + s[1..] == s;
      if s[0] == c {
        JoinAfterSeparator(rest, c);
      } else {
        JoinAfterElement(s[0], rest, c);
      }
    }
  }
}
