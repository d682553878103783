/** String primitives with the meaning Python 3 gives them on `str`: whitespace
    classification, lower-casing, `split()`, `split(sep)`, `sep.join(parts)`,
    `strip()`, `count(c)` and the substring test `sub in s`. */
module Text {

  /** The characters `str.isspace` accepts; `str.split()` and `str.strip()`
      with no argument cut at exactly these. */
  predicate IsSpace(c: char) {
    var n := c as int;
    || 0x09 <= n <= 0x0D
    || 0x1C <= n <= 0x20
    || n == 0x85 || n == 0xA0 || n == 0x1680
    || 0x2000 <= n <= 0x200A
    || n == 0x2028 || n == 0x2029 || n == 0x202F || n == 0x205F || n == 0x3000
  }

  predicate AllSpace(s: string) {
    forall i :: 0 <= i < |s| ==> IsSpace(s[i])
  }

  lemma AllSpaceAppend(a: string, b: string)
    ensures AllSpace(a + b) <==> AllSpace(a) && AllSpace(b)
  {
    if AllSpace(a + b) {
      forall i | 0 <= i < |a|
        ensures IsSpace(a[i])
      {
        assert (a + b)[i] == a[i];
      }
      forall i | 0 <= i < |b|
        ensures IsSpace(b[i])
      {
        assert (a + b)[|a| + i] == b[i];
      }
    }
  }

  /** A word as `str.split()` yields it: non-empty, no whitespace inside. */
  predicate IsToken(w: string) {
    |w| > 0 && forall i :: 0 <= i < |w| ==> !IsSpace(w[i])
  }

  /** Lower-casing of one character, restricted to ASCII letters. */
  function LowerChar(c: char): char {
    if 'A' <= c <= 'Z' then (c as int + 32) as char else c
  }

  /** `s.lower()` */
  function Lower(s: string): string {
    seq(|s|, i requires 0 <= i < |s| => LowerChar(s[i]))
  }

  /** Lower-casing twice is lower-casing once, so comparing lowered strings
      ignores case differences in either argument. */
  lemma LowerIdempotent(s: string)
    ensures Lower(Lower(s)) == Lower(s)
  {
    assert forall i :: 0 <= i < |s| ==> LowerChar(LowerChar(s[i])) == LowerChar(s[i]);
  }

  /** Lower-casing leaves every whitespace position where it was. */
  lemma LowerKeepsSpaces(s: string)
    ensures forall i :: 0 <= i < |s| ==> (IsSpace(Lower(s)[i]) <==> IsSpace(s[i]))
  {
  }

  // ---------------------------------------------------------------------------
  // `str.split()` with no separator

  /** Length of the run of non-whitespace characters that starts `s`. */
  function TokenLength(s: string): (n: nat)
    ensures n <= |s|
    ensures forall i :: 0 <= i < n ==> !IsSpace(s[i])
    ensures n < |s| ==> IsSpace(s[n])
  {
    if s == [] || IsSpace(s[0]) then 0 else 1 + TokenLength(s[1..])
  }

  /** `s.split()`: the maximal runs of non-whitespace characters, in order. */
  function Words(s: string): (ws: seq<string>)
    ensures forall i :: 0 <= i < |ws| ==> IsToken(ws[i])
    ensures ws == [] <==> AllSpace(s)
    decreases |s|
  {
    if s == [] then []
    else if IsSpace(s[0]) then Words(s[1..])
    else
      var n := TokenLength(s);
      [s[..n]] + Words(s[n..])
  }

  /** A token that already stops inside `a`, or at its end in front of
      whitespace, keeps its length whatever follows. */
  lemma {:induction false} TokenLengthAppend(a: string, rest: string)
    requires TokenLength(a) < |a| || rest == [] || IsSpace(rest[0])
    ensures TokenLength(a + rest) == TokenLength(a)
  {
    var s := a + rest;
    if a == [] {
      assert s == rest;
    } else if IsSpace(a[0]) {
      assert s[0] == a[0];
    } else {
      assert s[0] == a[0];
      assert s[1..] == a[1..] + rest;
      assert TokenLength(a) == 1 + TokenLength(a[1..]);
      TokenLengthAppend(a[1..], rest);
    }
  }

  /** Any whitespace character separates: the words around it are the words
      of the text before it followed by the words of the text after it. */
  lemma {:induction false} WordsAroundSpace(a: string, c: char, b: string)
    requires IsSpace(c)
    ensures Words(a + [c] + b) == Words(a) + Words(b)
    decreases |a|
  {
    if a == [] {
      var s := a + [c] + b;
      assert s[0] == c;
      assert s[1..] == b;
      assert Words(s) == Words(s[1..]);
    } else if IsSpace(a[0]) {
      var s := a + [c] + b;
      assert s[0] == a[0];
      assert s[1..] == a[1..] + [c] + b;
      assert Words(s) == Words(s[1..]);
      assert Words(a) == Words(a[1..]);
      WordsAroundSpace(a[1..], c, b);
    } else {
      var n := TokenLength(a);
      assert n == 1 + TokenLength(a[1..]);
      WordsAroundSpace(a[n..], c, b);
      WordsAfterToken(a, c, b);
    }
  }

  /** The inductive step over a leading token: what `split()` gives after
      the token carries over to the whole text. */
  lemma WordsAfterToken(a: string, c: char, b: string)
    requires a != [] && !IsSpace(a[0]) && IsSpace(c)
    requires Words(a[TokenLength(a)..] + [c] + b) == Words(a[TokenLength(a)..]) + Words(b)
    ensures Words(a + [c] + b) == Words(a) + Words(b)
  {
    var n := WordsOfLeadingToken(a, [c] + b);
    AppendAssoc(a, [c], b);
    AppendAssoc(a[n..], [c], b);
    AppendAssoc([a[..n]], Words(a[n..]), Words(b));
  }

  /** Splitting off the first token of `a` splits it off `a + rest` too,
      when `rest` starts with whitespace. */
  lemma WordsOfLeadingToken(a: string, rest: string) returns (n: nat)
    requires a != [] && !IsSpace(a[0])
    requires rest != [] && IsSpace(rest[0])
    ensures n == TokenLength(a) && 0 < n <= |a|
    ensures Words(a) == [a[..n]] + Words(a[n..])
    ensures Words(a + rest) == [a[..n]] + Words(a[n..] + rest)
  {
    n := TokenLength(a);
    assert n == 1 + TokenLength(a[1..]);
    TokenLengthAppend(a, rest);
    var s := a + rest;
    assert s[0] == a[0];
    assert s[..n] == a[..n];
    assert s[n..] == a[n..] + rest;
  }

  lemma AppendAssoc<T>(p: seq<T>, q: seq<T>, r: seq<T>)
    ensures p + (q + r) == (p + q) + r
  {
  }

  /** `sep.join(parts)` */
  function Join(parts: seq<string>, sep: string): string {
    if parts == [] then ""
    else if |parts| == 1 then parts[0]
    else parts[0] + sep + Join(parts[1..], sep)
  }

  lemma {:induction false} TokenLengthOfToken(w: string, rest: string)
    requires IsToken(w)
    requires rest == [] || IsSpace(rest[0])
    ensures TokenLength(w + rest) == |w|
    decreases |w|
  {
    var s := w + rest;
    assert s[0] == w[0] && !IsSpace(s[0]);
    assert TokenLength(s) == 1 + TokenLength(s[1..]);
    if |w| > 1 {
      assert s[1..] == w[1..] + rest;
      TokenLengthOfToken(w[1..], rest);
    } else {
      assert s[1..] == rest;
    }
  }

  /** Splitting the space-joined words gives the words back: `split()` undoes
      `" ".join(...)` on any list of tokens. */
  lemma {:induction false} WordsOfJoin(ws: seq<string>)
    requires forall i :: 0 <= i < |ws| ==> IsToken(ws[i])
    ensures Words(Join(ws, " ")) == ws
  {
    if ws == [] {
      assert Join(ws, " ") == "";
    } else if |ws| == 1 {
      var w := ws[0];
      assert Join(ws, " ") == w;
      TokenLengthOfToken(w, "");
      assert w + "" == w;
      WordsOfToken(w, "");
      assert Words("") == [];
    } else {
      var w := ws[0];
      var j := Join(ws[1..], " ");
      JoinCons(w, ws[1..], " ");
      assert Join(ws, " ") == w + (" " + j);
      AppendAssoc(w, " ", j);
      WordsAroundSpace(w, ' ', j);
      WordsOfToken(w, "");
      assert w + "" == w;
      assert Words("") == [];
      WordsOfJoin(ws[1..]);
      assert ws == [w] + ws[1..];
    }
  }

  /** A token followed by whitespace or nothing is the first word. */
  lemma WordsOfToken(w: string, rest: string)
    requires IsToken(w)
    requires rest == [] || IsSpace(rest[0])
    ensures Words(w + rest) == [w] + Words(rest)
  {
    var s := w + rest;
    TokenLengthOfToken(w, rest);
    assert s[0] == w[0] && !IsSpace(s[0]);
    assert s[..|w|] == w;
    assert s[|w|..] == rest;
  }

  // ---------------------------------------------------------------------------
  // `str.split(sep)`, substring search and `sep.join`

  /** `sub` occurs in `s` starting at index `i`. */
  predicate OccursAt(s: string, sub: string, i: int) {
    0 <= i && i + |sub| <= |s| && s[i..i + |sub|] == sub
  }

  /** `sub in s` */
  predicate Contains(s: string, sub: string) {
    exists i :: 0 <= i <= |s| && OccursAt(s, sub, i)
  }

  /** `s.split(sep)`: cut at every occurrence of `sep`, scanning left to right
      and never letting two cut points overlap. */
  function SplitOn(s: string, sep: string): (parts: seq<string>)
    requires |sep| > 0
    ensures |parts| >= 1
    ensures parts[0] <= s
    ensures forall i :: 0 <= i < |parts| ==> !Contains(parts[i], sep)
    decreases |s|
  {
    if |s| < |sep| then
      TooShortToContain(s, sep);
      [s]
    else if s[..|sep|] == sep then
      TooShortToContain("", sep);
      [""] + SplitOn(s[|sep|..], sep)
    else
      var rest := SplitOn(s[1..], sep);
      ExtendedHeadFree(s, sep, rest[0]);
      [[s[0]] + rest[0]] + rest[1..]
  }

  lemma TooShortToContain(s: string, sep: string)
    requires |s| < |sep|
    ensures !Contains(s, sep)
  {
  }

  /** A piece that starts the text and grows by one character from a piece
      without the separator has no separator either, when the text does not
      start with one. */
  lemma ExtendedHeadFree(s: string, sep: string, r: string)
    requires |sep| <= |s| && s[..|sep|] != sep
    requires r <= s[1..] && !Contains(r, sep)
    ensures !Contains([s[0]] + r, sep)
  {
    var h := [s[0]] + r;
    forall k | 0 <= k <= |h|
      ensures !OccursAt(h, sep, k)
    {
      if k == 0 {
        if |sep| <= |h| {
          assert h[..|sep|] == s[..|sep|];
        }
      } else {
        OccursAtShift(h, sep, k);
        assert h[1..] == r;
      }
    }
  }

  /** Joining the pieces with the separator restores the string. */
  lemma {:induction false} SplitJoin(s: string, sep: string)
    requires |sep| > 0
    ensures Join(SplitOn(s, sep), sep) == s
    decreases |s|
  {
    if |s| < |sep| {
      assert SplitOn(s, sep) == [s];
    } else if s[..|sep|] == sep {
      var tail := s[|sep|..];
      var rest := SplitOn(tail, sep);
      assert SplitOn(s, sep) == [""] + rest;
      SplitJoin(tail, sep);
      JoinCons("", rest, sep);
      assert s == sep + tail;
    } else {
      var tail := s[1..];
      var rest := SplitOn(tail, sep);
      assert SplitOn(s, sep) == [[s[0]] + rest[0]] + rest[1..];
      SplitJoin(tail, sep);
      JoinExtendHead(s[0], rest, sep);
      assert s == [s[0]] + tail;
    }
  }

  /** One more leading piece adds itself and a separator in front. */
  lemma JoinCons(part: string, rest: seq<string>, sep: string)
    requires rest != []
    ensures Join([part] + rest, sep) == part + sep + Join(rest, sep)
  {
    assert ([part] + rest)[1..] == rest;
  }

  /** Prefixing a character to the first piece prefixes it to the join. */
  lemma JoinExtendHead(c: char, parts: seq<string>, sep: string)
    requires parts != []
    ensures Join([[c] + parts[0]] + parts[1..], sep) == [c] + Join(parts, sep)
  {
    var head := [c] + parts[0];
    if |parts| > 1 {
      var more := Join(parts[1..], sep);
      assert parts == [parts[0]] + parts[1..];
      JoinCons(parts[0], parts[1..], sep);
      JoinCons(head, parts[1..], sep);
      assert head + sep + more == [c] + (parts[0] + sep + more);
    } else {
      assert [head] + parts[1..] == [head];
    }
  }

  lemma OccursAtShift(s: string, sub: string, i: int)
    requires |s| > 0 && i >= 1
    ensures OccursAt(s, sub, i) <==> OccursAt(s[1..], sub, i - 1)
  {
    if i + |sub| <= |s| {
      assert s[1..][i - 1..i - 1 + |sub|] == s[i..i + |sub|];
    }
  }

  /** Splitting on `sep` yields two or more pieces exactly when `sep` occurs. */
  lemma {:induction false} SplitCountContains(s: string, sep: string)
    requires |sep| > 0
    ensures |SplitOn(s, sep)| >= 2 <==> Contains(s, sep)
    decreases |s|
  {
    if |s| < |sep| {
    } else if s[..|sep|] == sep {
      assert OccursAt(s, sep, 0);
    } else {
      SplitCountContains(s[1..], sep);
      if Contains(s, sep) {
        var i :| 0 <= i <= |s| && OccursAt(s, sep, i);
        assert i != 0;
        OccursAtShift(s, sep, i);
        assert OccursAt(s[1..], sep, i - 1);
      }
      if Contains(s[1..], sep) {
        var j :| 0 <= j <= |s[1..]| && OccursAt(s[1..], sep, j);
        OccursAtShift(s, sep, j + 1);
        assert OccursAt(s, sep, j + 1);
      }
    }
  }

  /** Joining the first `k` pieces of a split gives a prefix of the string. */
  lemma {:induction false} JoinPrefixOfSplit(s: string, sep: string, k: nat)
    requires |sep| > 0
    requires 1 <= k <= |SplitOn(s, sep)|
    ensures Join(SplitOn(s, sep)[..k], sep) <= s
  {
    var parts := SplitOn(s, sep);
    SplitJoin(s, sep);
    JoinSplitAt(parts, sep, k);
  }

  lemma {:induction false} JoinSplitAt(parts: seq<string>, sep: string, k: nat)
    requires 1 <= k <= |parts|
    ensures Join(parts[..k], sep) <= Join(parts, sep)
    decreases k
  {
    if k == |parts| {
      assert parts[..k] == parts;
    } else if k == 1 {
      assert parts[..1] == [parts[0]];
    } else {
      JoinSplitAt(parts[1..], sep, k - 1);
      assert parts[..k][1..] == parts[1..][..k - 1];
    }
  }

  // ---------------------------------------------------------------------------
  // `strip()`, `endswith(c)` and `count(c)`

  /** `s.lstrip()`: the suffix left after the leading whitespace. */
  function TrimStart(s: string): (r: string)
    ensures |r| <= |s| && r == s[|s| - |r|..]
    ensures AllSpace(s[..|s| - |r|])
    ensures r == [] || !IsSpace(r[0])
  {
    if s != [] && IsSpace(s[0]) then
      var r := TrimStart(s[1..]);
      DropFirstSlices(s, |s| - |r|);
      AllSpaceAppend([s[0]], s[1..][..|s| - 1 - |r|]);
      r
    else s
  }

  /** How slices of `s` relate to slices of `s` without its first element. */
  lemma DropFirstSlices<T>(s: seq<T>, k: nat)
    requires 1 <= k <= |s|
    ensures s[1..][k - 1..] == s[k..]
    ensures s[..k] == [s[0]] + s[1..][..k - 1]
  {
  }

  /** How slices of `s` relate to slices of `s` without its last element. */
  lemma DropLastSlices<T>(s: seq<T>, k: nat)
    requires k < |s|
    ensures s[..|s| - 1][..k] == s[..k]
    ensures s[k..] == s[..|s| - 1][k..] + [s[|s| - 1]]
  {
  }

  /** `s.rstrip()`: the prefix left before the trailing whitespace. */
  function TrimEnd(s: string): (r: string)
    ensures |r| <= |s| && r == s[..|r|]
    ensures AllSpace(s[|r|..])
    ensures r == [] || !IsSpace(r[|r| - 1])
  {
    if s != [] && IsSpace(s[|s| - 1]) then
      var r := TrimEnd(s[..|s| - 1]);
      DropLastSlices(s, |r|);
      AllSpaceAppend(s[..|s| - 1][|r|..], [s[|s| - 1]]);
      r
    else s
  }

  /** `s.strip()` */
  function Strip(s: string): (r: string)
    ensures r == [] || (!IsSpace(r[0]) && !IsSpace(r[|r| - 1]))
    ensures r == [] <==> AllSpace(s)
  {
    TrimEnd(TrimStart(s))
  }

  /** Leading whitespace up to a visible character (or the end) is what
      `lstrip()` removes. */
  lemma {:induction false} TrimStartAt(s: string, i: nat)
    requires i <= |s| && AllSpace(s[..i])
    requires i == |s| || !IsSpace(s[i])
    ensures TrimStart(s) == s[i..]
  {
    if i > 0 {
      assert IsSpace(s[..i][0]);
      assert s[1..][..i - 1] == s[1..i];
      assert forall k :: 0 <= k < i - 1 ==> s[1..i][k] == s[..i][k + 1];
      TrimStartAt(s[1..], i - 1);
      assert s[1..][i - 1..] == s[i..];
    }
  }

  /** Trailing whitespace after a visible character (or the start) is what
      `rstrip()` removes. */
  lemma {:induction false} TrimEndAt(s: string, j: nat)
    requires j <= |s| && AllSpace(s[j..])
    requires j == 0 || !IsSpace(s[j - 1])
    ensures TrimEnd(s) == s[..j]
    decreases |s| - j
  {
    if j < |s| {
      var last := |s| - 1;
      assert IsSpace(s[j..][last - j]);
      assert s[..last][j..] == s[j..last];
      assert forall k :: 0 <= k < last - j ==> s[j..last][k] == s[j..][k];
      TrimEndAt(s[..last], j);
      assert s[..last][..j] == s[..j];
    }
  }

  /** `strip()` is characterised without reference to how it is computed:
      for any split of `s` into whitespace, a middle that starts and ends
      with a visible character (or is empty), and whitespace, it returns
      that middle. */
  lemma StripAt(s: string, i: nat, j: nat)
    requires i <= j <= |s|
    requires AllSpace(s[..i]) && AllSpace(s[j..])
    requires i < j ==> !IsSpace(s[i]) && !IsSpace(s[j - 1])
    ensures Strip(s) == s[i..j]
  {
    if i < j {
      TrimStartAt(s, i);
      TrimEndOfSuffix(s, i, j);
    } else {
      assert s == s[..i] + s[j..];
      AllSpaceAppend(s[..i], s[j..]);
    }
  }

  lemma TrimEndOfSuffix(s: string, i: nat, j: nat)
    requires i < j <= |s| && AllSpace(s[j..]) && !IsSpace(s[j - 1])
    ensures TrimEnd(s[i..]) == s[i..j]
  {
    var t := s[i..];
    assert t[j - i..] == s[j..];
    assert t[j - i - 1] == s[j - 1];
    TrimEndAt(t, j - i);
    assert t[..j - i] == s[i..j];
  }

  /** `s.endswith(c)` for a one-character suffix. */
  predicate EndsWith(s: string, c: char) {
    |s| > 0 && s[|s| - 1] == c
  }

  /** `s.count(c)` for a one-character needle. */
  function CountChar(s: string, c: char): (n: nat)
    ensures n <= |s|
    ensures n == 0 <==> c !in s
  {
    if s == [] then 0 else (if s[0] == c then 1 else 0) + CountChar(s[1..], c)
  }

  /** Counting is additive over concatenation. */
  lemma {:induction false} CountCharAppend(a: string, b: string, c: char)
    ensures CountChar(a + b, c) == CountChar(a, c) + CountChar(b, c)
  {
    if a == [] {
      assert a + b == b;
    } else {
      assert (a + b)[0] == a[0];
      assert (a + b)[1..] == a[1..] + b;
      CountCharAppend(a[1..], b, c);
    }
  }

  /** The positions of `s` that hold `c`. */
  function IndicesOf(s: string, c: char): set<int> {
    set i | 0 <= i < |s| && s[i] == c
  }

  /** `s.count(c)` is the number of positions of `s` holding `c`. */
  lemma {:induction false} CountCharIndices(s: string, c: char)
    ensures CountChar(s, c) == |IndicesOf(s, c)|
    decreases |s|
  {
    if s != [] {
      var n := |s| - 1;
      var init := s[..n];
      CountCharIndices(init, c);
      assert s == init + [s[n]];
      CountCharAppend(init, [s[n]], c);
      assert [s[n]][1..] == [];
      assert forall i :: 0 <= i < n ==> init[i] == s[i];
      if s[n] == c {
        assert IndicesOf(s, c) == IndicesOf(init, c) + {n};
        assert n !in IndicesOf(init, c);
      } else {
        assert IndicesOf(s, c) == IndicesOf(init, c);
      }
    }
  }

  /** Occurrences of two different characters never share a position, so
      together they number at most the length of the text. */
  lemma {:induction false} CountTwoChars(s: string, c: char, d: char)
    requires c != d
    ensures CountChar(s, c) + CountChar(s, d) <= |s|
  {
    if s != [] {
      CountTwoChars(s[1..], c, d);
    }
  }
}
