/** Searching, splitting, joining and trimming text, as the Go library does it. */
module Lines {
  import opened Text

  // ---------- First occurrence ----------

  predicate OccursAt(s: string, m: string, i: nat) {
    i + |m| <= |s| && forall k :: 0 <= k < |m| ==> m[k] == s[i + k]
  }

  function IndexFrom(s: string, m: string, i: nat): (r: Option<nat>)
    requires i <= |s|
    ensures r.Some? ==> i <= r.value && r.value + |m| <= |s|
    decreases |s| - i
  {
    if OccursAt(s, m, i) then Some(i)
    else if i == |s| then None
    else IndexFrom(s, m, i + 1)
  }

  /** Where `m` first occurs in `s`. */
  function Index(s: string, m: string): (r: Option<nat>)
    ensures r.Some? ==> r.value + |m| <= |s|
  {
    IndexFrom(s, m, 0)
  }

  lemma {:induction false} IndexFromFirst(s: string, m: string, i: nat, k: nat)
    requires i <= k && OccursAt(s, m, k) && forall j: nat :: i <= j < k ==> !OccursAt(s, m, j)
    ensures IndexFrom(s, m, i) == Some(k)
    decreases k - i
  {
    if i < k {
      IndexFromFirst(s, m, i + 1, k);
    }
  }

  ghost predicate Contains(s: string, m: string) {
    exists i: nat :: OccursAt(s, m, i)
  }

  lemma {:induction false} IndexFromFinds(s: string, m: string, i: nat)
    requires i <= |s| && forall j: nat :: j < i ==> !OccursAt(s, m, j)
    ensures IndexFrom(s, m, i).Some? <==> Contains(s, m)
    decreases |s| - i
  {
    if !OccursAt(s, m, i) && i < |s| {
      IndexFromFinds(s, m, i + 1);
    }
  }

  lemma {:induction false} IndexFromIsFirst(s: string, m: string, i: nat)
    requires i <= |s| && IndexFrom(s, m, i).Some?
    ensures OccursAt(s, m, IndexFrom(s, m, i).value)
    ensures forall j: nat :: i <= j < IndexFrom(s, m, i).value ==> !OccursAt(s, m, j)
    decreases |s| - i
  {
    if !OccursAt(s, m, i) {
      IndexFromIsFirst(s, m, i + 1);
    }
  }

  /** A search finds something exactly if it is there. */
  lemma IndexFinds(s: string, m: string)
    ensures Index(s, m).Some? <==> Contains(s, m)
  {
    IndexFromFinds(s, m, 0);
  }

  /** The first character of a marker does not come again in it. */
  predicate HeadUnique(m: string) {
    m != "" && forall k :: 0 < k < |m| ==> m[k] != m[0]
  }

  lemma OccursInside(a: string, t: string, m: string, j: nat)
    requires OccursAt(a + t, m, j) && j + |m| <= |a|
    ensures OccursAt(a, m, j)
  {
  }

  lemma OccursAcross(a: string, m: string, b: string, j: nat)
    requires OccursAt(a + m + b, m, j) && j < |a| < j + |m|
    ensures m[|a| - j] == m[0]
  {
    assert m[|a| - j] == (a + m + b)[j + (|a| - j)];
  }

  /** After text that does not contain it, such a marker is found where it was put: it cannot
      overlap the boundary. */
  lemma MarkerFound(a: string, m: string, b: string)
    requires HeadUnique(m) && !Contains(a, m)
    ensures Index(a + m + b, m) == Some(|a|)
  {
    var s := a + m + b;
    assert s == a + (m + b);
    assert OccursAt(s, m, |a|);
    forall j: nat | j < |a| ensures !OccursAt(s, m, j) {
      if OccursAt(s, m, j) {
        if j + |m| <= |a| {
          OccursInside(a, m + b, m, j);
        } else {
          OccursAcross(a, m, b, j);
        }
      }
    }
    IndexFromFirst(s, m, 0, |a|);
  }

  /** It is found there only if it does not come before. */
  lemma MarkerFoundIff(a: string, m: string, b: string)
    requires HeadUnique(m)
    ensures Index(a + m + b, m) == Some(|a|) <==> !Contains(a, m)
  {
    var s := a + m + b;
    if !Contains(a, m) {
      MarkerFound(a, m, b);
    } else {
      var j: nat :| OccursAt(a, m, j);
      assert OccursAt(s, m, j);
      if Index(s, m) == Some(|a|) {
        IndexFromIsFirst(s, m, 0);
      }
    }
  }

  // ---------- Lines ----------

  function Split(s: string): (lines: seq<string>)
    ensures lines != [] && forall l :: l in lines ==> '\n' !in l
  {
    if s == "" then [""]
    else if s[0] == '\n' then [""] + Split(s[1..])
    else
      var rest := Split(s[1..]);
      [[s[0]] + rest[0]] + rest[1..]
  }

  function Join(lines: seq<string>): string {
    if lines == [] then ""
    else if |lines| == 1 then lines[0]
    else lines[0] + "\n" + Join(lines[1..])
  }

  lemma {:induction false} SplitFirst(l: string, rest: string)
    requires '\n' !in l
    ensures Split(l + "\n" + rest) == [l] + Split(rest)
  {
    var s := l + "\n" + rest;
    if l == "" {
      assert s[0] == '\n' && s[1..] == rest;
    } else {
      assert s[1..] == l[1..] + "\n" + rest;
      SplitFirst(l[1..], rest);
      assert [l[0]] + l[1..] == l;
    }
  }

  lemma {:induction false} SplitOne(l: string)
    requires '\n' !in l
    ensures Split(l) == [l]
  {
    if l != "" {
      SplitOne(l[1..]);
      assert [l[0]] + l[1..] == l;
    }
  }

  /** Splitting undoes joining. */
  lemma {:induction false} SplitJoin(lines: seq<string>)
    requires lines != [] && forall l :: l in lines ==> '\n' !in l
    ensures Split(Join(lines)) == lines
  {
    assert lines[0] in lines;
    if |lines| == 1 {
      SplitOne(lines[0]);
    } else {
      SplitJoin(lines[1..]);
      SplitFirst(lines[0], Join(lines[1..]));
    }
  }

  lemma {:induction false} JoinLast(lines: seq<string>, last: string)
    requires lines != []
    ensures Join(lines + [last]) == Join(lines) + "\n" + last
  {
    if |lines| == 1 {
      assert (lines + [last])[1..] == [last];
    } else {
      assert (lines + [last])[1..] == lines[1..] + [last];
      JoinLast(lines[1..], last);
      assert lines[0] + "\n" + (Join(lines[1..]) + "\n" + last) == lines[0] + "\n" + Join(lines[1..]) + "\n" + last;
    }
  }

  // ---------- Trimming ----------

  predicate IsSpace(c: char) {
    c in "\t\n\r \U{000B}\U{000C}\U{0085}\U{00A0}\U{1680}\U{2028}\U{2029}\U{202F}\U{205F}\U{3000}"
    || '\U{2000}' <= c <= '\U{200A}'
  }

  predicate Blank(s: string) {
    forall c :: c in s ==> IsSpace(c)
  }

  function TrimLeft(s: string): string {
    if s != "" && IsSpace(s[0]) then TrimLeft(s[1..]) else s
  }

  function TrimRight(s: string): string {
    if s != "" && IsSpace(s[|s| - 1]) then TrimRight(s[..|s| - 1]) else s
  }

  function Trim(s: string): string {
    TrimLeft(TrimRight(s))
  }

  lemma {:induction false} TrimLeftBlank(s: string)
    ensures Blank(s) <==> TrimLeft(s) == ""
    ensures !Blank(s) ==> !Blank(TrimLeft(s)) && !IsSpace(TrimLeft(s)[0])
    ensures forall c :: c in TrimLeft(s) ==> c in s
  {
    if s != "" {
      assert s == [s[0]] + s[1..];
      TrimLeftBlank(s[1..]);
    }
  }

  lemma BlankAppend(s: string, c: char)
    ensures Blank(s + [c]) <==> Blank(s) && IsSpace(c)
  {
    if Blank(s + [c]) {
      assert (s + [c])[|s|] == c;
      assert forall d :: d in s ==> d in s + [c];
    }
  }

  lemma LastNotBlank(s: string)
    requires s != "" && !IsSpace(s[|s| - 1])
    ensures !Blank(s)
  {
    assert s[|s| - 1] in s;
  }

  lemma {:induction false} TrimRightBlank(s: string)
    ensures Blank(s) <==> TrimRight(s) == ""
    ensures !Blank(s) ==> !Blank(TrimRight(s)) && !IsSpace(TrimRight(s)[|TrimRight(s)| - 1])
  {
    if s != "" {
      var init, c := s[..|s| - 1], s[|s| - 1];
      if IsSpace(c) {
        assert s == init + [c];
        BlankAppend(init, c);
        TrimRightBlank(init);
        assert TrimRight(s) == TrimRight(init);
      } else {
        LastNotBlank(s);
        assert TrimRight(s) == s;
      }
    }
  }

  lemma {:induction false} TrimRightChars(s: string)
    ensures forall c :: c in TrimRight(s) ==> c in s
  {
    if s != "" && IsSpace(s[|s| - 1]) {
      TrimRightChars(s[..|s| - 1]);
    }
  }

  lemma {:induction false} TrimLeftConcat(s: string, t: string)
    ensures TrimLeft(s + t) == if Blank(s) then TrimLeft(t) else TrimLeft(s) + t
  {
    if s == "" {
      assert s + t == t;
    } else {
      assert (s + t)[1..] == s[1..] + t;
      assert s == [s[0]] + s[1..];
      TrimLeftConcat(s[1..], t);
    }
  }

  lemma {:induction false} TrimRightConcat(s: string, t: string)
    ensures TrimRight(s + t) == if Blank(t) then TrimRight(s) else s + TrimRight(t)
  {
    if t == "" {
      assert s + t == s;
    } else {
      assert (s + t)[..|s + t| - 1] == s + t[..|t| - 1];
      assert t == t[..|t| - 1] + [t[|t| - 1]];
      TrimRightConcat(s, t[..|t| - 1]);
    }
  }

  /** It does not matter at which end trimming starts. */
  lemma {:induction false} TrimCommutes(s: string)
    ensures TrimRight(TrimLeft(s)) == Trim(s)
  {
    if s != "" {
      var rest := s[1..];
      assert s == [s[0]] + rest;
      TrimRightConcat([s[0]], rest);
      TrimRightBlank(rest);
      if IsSpace(s[0]) {
        TrimCommutes(rest);
        TrimLeftConcat([s[0]], TrimRight(rest));
        if Blank(rest) {
          TrimLeftBlank(rest);
          TrimRightBlank(s);
        }
      } else {
        TrimRightBlank(s);
        TrimRightBlank([s[0]]);
      }
    }
  }

  lemma {:induction false} TrimRightIdempotent(s: string)
    ensures TrimRight(TrimRight(s)) == TrimRight(s)
  {
    if s != "" && IsSpace(s[|s| - 1]) {
      TrimRightIdempotent(s[..|s| - 1]);
    }
  }

  lemma {:induction false} TrimLeftIdempotent(s: string)
    ensures TrimLeft(TrimLeft(s)) == TrimLeft(s)
  {
    if s != "" && IsSpace(s[0]) {
      TrimLeftIdempotent(s[1..]);
    }
  }

  /** Trimming one end first makes no difference to the trimmed text. */
  lemma {:induction false} TrimAbsorbs(s: string)
    ensures Trim(TrimLeft(s)) == Trim(s) && Trim(TrimRight(s)) == Trim(s) && Trim(Trim(s)) == Trim(s)
  {
    TrimCommutes(s);
    TrimRightIdempotent(s);
    TrimLeftIdempotent(TrimRight(s));
    TrimLeftIdempotent(s);
    TrimCommutes(TrimLeft(s));
    TrimCommutes(TrimRight(s));
  }

  /** Text that neither starts nor ends with white space. */
  predicate Solid(s: string) {
    s != "" && !IsSpace(s[0]) && !IsSpace(s[|s| - 1])
  }

  lemma TrimAround(l: string, s: string, r: string)
    requires Blank(l) && Solid(s) && Blank(r)
    ensures Trim(l + s + r) == s
  {
    PaddingRight(l, s, r);
    TrimLeftConcat(l, s);
  }

  /** A text is its trimmed text with white space around it. */
  lemma TrimParts(s: string) returns (l: string, r: string)
    ensures Blank(l) && Blank(r) && s == l + Trim(s) + r
  {
    r := TrimmedRight(s);
    l := TrimmedLeft(TrimRight(s));
  }

  lemma BlankPrepend(c: char, s: string)
    requires IsSpace(c) && Blank(s)
    ensures Blank([c] + s)
  {
  }

  lemma {:induction false} TrimmedRight(s: string) returns (r: string)
    ensures Blank(r) && s == TrimRight(s) + r
  {
    r := "";
    if s != "" && IsSpace(s[|s| - 1]) {
      var init, c := s[..|s| - 1], s[|s| - 1];
      var rest := TrimmedRight(init);
      BlankAppend(rest, c);
      r := rest + [c];
      assert s == init + [c];
    }
  }

  lemma {:induction false} TrimmedLeft(s: string) returns (l: string)
    ensures Blank(l) && s == l + TrimLeft(s)
  {
    l := "";
    if s != "" && IsSpace(s[0]) {
      var tail, c := s[1..], s[0];
      var rest := TrimmedLeft(tail);
      BlankPrepend(c, rest);
      l := [c] + rest;
      assert s == [c] + tail;
    }
  }

  lemma PaddingRight(l: string, s: string, r: string)
    requires Solid(s) && Blank(r)
    ensures TrimRight(l + s + r) == l + s
  {
    TrimRightConcat(l + s, r);
    assert (l + s)[|l + s| - 1] == s[|s| - 1];
  }

  lemma CutEqually(a: string, b: string, c: string, d: string)
    requires a + b == c + d && |a| == |c|
    ensures a == c && b == d
  {
    assert a == (a + b)[..|a|] && c == (c + d)[..|c|];
    assert b == (a + b)[|a|..] && d == (c + d)[|c|..];
  }

  /** White space around solid text is determined by the whole. */
  lemma PaddingUnique(l: string, s: string, r: string, l': string, s': string, r': string)
    requires Blank(l) && Solid(s) && Blank(r) && Blank(l') && Solid(s') && Blank(r')
    requires l + s + r == l' + s' + r'
    ensures l == l' && s == s' && r == r'
  {
    TrimAround(l, s, r);
    TrimAround(l', s', r');
    PaddingRight(l, s, r);
    PaddingRight(l', s', r');
    CutEqually(l + s, r, l' + s', r');
    CutEqually(l, s, l', s');
  }
}
