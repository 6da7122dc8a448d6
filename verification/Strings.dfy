/** String rewriting over byte strings: replace all, format and unescape are three loops
    that cut a string at the leftmost occurrences of a separator. */
module Strings {

  datatype Option<T> = None | Some(value: T)

  ghost predicate OccursAt(s: string, sub: string, i: nat) {
    i + |sub| <= |s| && s[i..i + |sub|] == sub
  }

  /** std::string::find: the first occurrence at or after pos. */
  function Find(s: string, sub: string, pos: nat): (r: Option<nat>)
    ensures r.Some? ==> pos <= r.value && OccursAt(s, sub, r.value)
    ensures forall i: nat :: pos <= i && (r.Some? ==> i < r.value) ==> !OccursAt(s, sub, i)
    decreases |s| - pos
  {
    if pos + |sub| > |s| then None
    else if s[pos..pos + |sub|] == sub then Some(pos)
    else if pos == |s| then None
    else Find(s, sub, pos + 1)
  }

  /** s cut at the leftmost, non-overlapping occurrences of sep. */
  function Split(s: string, sep: string): (ps: seq<string>)
    requires sep != ""
    ensures ps != []
    decreases |s|
  {
    if |s| < |sep| then [s]
    else if sep <= s then [""] + Split(s[|sep|..], sep)
    else
      var r := Split(s[1..], sep);
      [[s[0]] + r[0]] + r[1..]
  }

  function Join(ps: seq<string>, sep: string): string
    requires ps != []
  {
    if |ps| == 1 then ps[0] else ps[0] + sep + Join(ps[1..], sep)
  }

  /** sep first occurs in piece k, followed by sep, where the piece ends. */
  ghost predicate EndsPiece(p: string, sep: string) {
    forall i: nat :: i < |p| ==> !OccursAt(p + sep, sep, i)
  }

  ghost predicate Free(p: string, sep: string) {
    forall i: nat :: !OccursAt(p, sep, i)
  }

  /** The pieces are those of a cut at leftmost occurrences. */
  ghost predicate Leftmost(ps: seq<string>, sep: string)
    requires ps != []
  {
    && (forall k :: 0 <= k < |ps| - 1 ==> EndsPiece(ps[k], sep))
    && Free(ps[|ps| - 1], sep)
  }

  // ---------------------------------------------------------------------------
  // Split is the leftmost cut
  // ---------------------------------------------------------------------------

  lemma SubSlice(s: string, lo: nat, hi: nat, k: nat, n: nat)
    requires lo <= hi <= |s| && k + n <= hi - lo
    ensures s[lo..hi][k..k + n] == s[lo + k..lo + k + n]
  {
    var a, b := s[lo..hi][k..k + n], s[lo + k..lo + k + n];
    forall j | 0 <= j < n
      ensures a[j] == b[j]
    {
      assert a[j] == s[lo..hi][k + j] == s[lo + (k + j)];
    }
  }

  /** A slice behind the first character. */
  lemma TailSlice(s: string, t: string, k: nat, n: nat)
    requires s != "" && s[1..] == t && k + n <= |t|
    ensures t[k..k + n] == s[k + 1..k + 1 + n]
  {
    SubSlice(s, 1, |s|, k, n);
  }

  lemma JoinCons(c: char, ps: seq<string>, sep: string)
    requires ps != []
    ensures Join([[c] + ps[0]] + ps[1..], sep) == [c] + Join(ps, sep)
  {
    var qs := [[c] + ps[0]] + ps[1..];
    assert qs[1..] == ps[1..];
    if |ps| > 1 {
      assert ([c] + ps[0]) + sep + Join(ps[1..], sep) == [c] + (ps[0] + sep + Join(ps[1..], sep));
    }
  }

  lemma {:induction false} SplitJoinsBack(s: string, sep: string)
    requires sep != ""
    ensures Join(Split(s, sep), sep) == s
    decreases |s|
  {
    if |s| < |sep| {
    } else if sep <= s {
      SplitJoinsBack(s[|sep|..], sep);
      JoinTail("", Split(s[|sep|..], sep), sep);
      assert "" + sep + s[|sep|..] == s;
    } else {
      SplitJoinsBack(s[1..], sep);
      JoinCons(s[0], Split(s[1..], sep), sep);
    }
  }

  /** Cutting p + sep + rest, where sep first occurs at the end of p. */
  lemma {:induction false} SplitAtFirst(p: string, sep: string, rest: string)
    requires sep != "" && EndsPiece(p, sep)
    ensures Split(p + sep + rest, sep) == [p] + Split(rest, sep)
    decreases |p|
  {
    var s := p + sep + rest;
    if p == "" {
      assert s == sep + rest && s[|sep|..] == rest;
    } else {
      assert !OccursAt(p + sep, sep, 0);
      assert s[..|sep|] == (p + sep)[..|sep|];
      assert s[1..] == p[1..] + sep + rest;
      forall i: nat | i < |p[1..]|
        ensures !OccursAt(p[1..] + sep, sep, i)
      {
        assert !OccursAt(p + sep, sep, i + 1);
        assert (p + sep)[1..] == p[1..] + sep;
        TailSlice(p + sep, p[1..] + sep, i, |sep|);
      }
      SplitAtFirst(p[1..], sep, rest);
      assert [p[0]] + p[1..] == p;
    }
  }

  lemma {:induction false} SplitFree(p: string, sep: string)
    requires sep != "" && Free(p, sep)
    ensures Split(p, sep) == [p]
    decreases |p|
  {
    if |p| >= |sep| {
      assert !OccursAt(p, sep, 0);
      forall i: nat
        ensures !OccursAt(p[1..], sep, i)
      {
        assert !OccursAt(p, sep, i + 1);
        if i + |sep| <= |p[1..]| {
          TailSlice(p, p[1..], i, |sep|);
        }
      }
      SplitFree(p[1..], sep);
      assert [p[0]] + p[1..] == p;
    }
  }

  /** Only the leftmost cut survives joining and cutting again. */
  lemma {:induction false} SplitOfJoin(ps: seq<string>, sep: string)
    requires sep != "" && ps != [] && Leftmost(ps, sep)
    ensures Split(Join(ps, sep), sep) == ps
  {
    if |ps| == 1 {
      SplitFree(ps[0], sep);
    } else {
      var qs := ps[1..];
      assert forall k :: 0 <= k < |qs| - 1 ==> qs[k] == ps[k + 1];
      SplitOfJoin(qs, sep);
      SplitAtFirst(ps[0], sep, Join(qs, sep));
    }
  }

  lemma {:induction false} SplitIsLeftmost(s: string, sep: string)
    requires sep != ""
    ensures Leftmost(Split(s, sep), sep)
    decreases |s|
  {
    if |s| < |sep| {
    } else if sep <= s {
      SplitIsLeftmost(s[|sep|..], sep);
      var r := Split(s[|sep|..], sep);
      assert forall k :: 1 <= k < |r| + 1 ==> Split(s, sep)[k] == r[k - 1];
    } else {
      SplitIsLeftmost(s[1..], sep);
      SplitJoinsBack(s[1..], sep);
      ConsLeftmost(s, Split(s[1..], sep), sep);
    }
  }

  lemma ConsLeftmost(s: string, r: seq<string>, sep: string)
    requires sep != "" && s != "" && r != [] && Leftmost(r, sep) && Join(r, sep) == s[1..] && !(sep <= s)
    ensures Leftmost([[s[0]] + r[0]] + r[1..], sep)
  {
    var p, q := r[0], [s[0]] + r[0];
    var t := if |r| == 1 then p else p + sep;
    assert t <= s[1..];
    forall i: nat | i < |q| || |r| == 1
      ensures !OccursAt([s[0]] + t, sep, i)
    {
      if i == 0 {
        assert [s[0]] + t <= s;
      } else {
        assert !OccursAt(t, sep, i - 1);
        if i + |sep| <= |t| + 1 {
          assert ([s[0]] + t)[1..] == t;
          TailSlice([s[0]] + t, t, i - 1, |sep|);
        }
      }
    }
    assert [s[0]] + (p + sep) == q + sep;
  }

  /** The cut is characterised without the algorithm: its pieces join back to s, and no
      occurrence of the separator starts before the end of a piece. */
  lemma SplitIsTheLeftmostCut(s: string, sep: string, ps: seq<string>)
    requires sep != "" && ps != []
    ensures ps == Split(s, sep) <==> Join(ps, sep) == s && Leftmost(ps, sep)
  {
    SplitJoinsBack(s, sep);
    SplitIsLeftmost(s, sep);
    if Join(ps, sep) == s && Leftmost(ps, sep) {
      SplitOfJoin(ps, sep);
    }
  }

  // ---------------------------------------------------------------------------
  // ReplaceAll
  // ---------------------------------------------------------------------------

  function Replaced(s: string, from: string, to: string): string {
    if from == "" then s else Join(Split(s, from), to)
  }

  /** sub occurs at i, and nowhere between pos and i. */
  ghost predicate FirstAt(s: string, sub: string, pos: nat, i: nat) {
    pos <= i && OccursAt(s, sub, i) && forall k: nat :: pos <= k < i ==> !OccursAt(s, sub, k)
  }

  /** Up to an occurrence found, the string from pos on is one piece. */
  lemma PieceFound(s: string, sep: string, pos: nat, i: nat)
    requires FirstAt(s, sep, pos, i)
    ensures pos <= i && i + |sep| <= |s|
    ensures EndsPiece(s[pos..i], sep) && s[pos..] == s[pos..i] + sep + s[i + |sep|..]
  {
    var t := s[pos..i] + sep;
    assert t == s[pos..i + |sep|];
    forall k: nat | k < i - pos
      ensures !OccursAt(t, sep, k)
    {
      assert !OccursAt(s, sep, pos + k);
      SubSlice(s, pos, i + |sep|, k, |sep|);
    }
    Cut(s, pos, i + |sep|);
  }

  lemma Cut(s: string, lo: nat, hi: nat)
    requires lo <= hi <= |s|
    ensures s[lo..] == s[lo..hi] + s[hi..]
  {
  }

  lemma SplitNotFound(s: string, sep: string)
    requires sep != "" && forall k: nat :: !OccursAt(s, sep, k)
    ensures Split(s, sep) == [s]
  {
    SplitFree(s, sep);
  }

  lemma OccursInRest(s: string, sub: string, pos: nat)
    requires pos <= |s|
    ensures forall k: nat :: OccursAt(s[pos..], sub, k) <==> OccursAt(s, sub, pos + k)
  {
    forall k: nat
      ensures OccursAt(s[pos..], sub, k) <==> OccursAt(s, sub, pos + k)
    {
      if k + |sub| <= |s[pos..]| {
        SubSlice(s, pos, |s|, k, |sub|);
        assert s[pos..|s|] == s[pos..];
      }
    }
  }

  lemma SplitRest(s: string, from: string, pos: nat, i: nat)
    requires from != "" && FirstAt(s, from, pos, i)
    ensures pos <= i && i + |from| <= |s|
    ensures Split(s[pos..], from) == [s[pos..i]] + Split(s[i + |from|..], from)
  {
    hide *;
    PieceFound(s, from, pos, i);
    SplitAtFirst(s[pos..i], from, s[i + |from|..]);
  }

  lemma JoinTail(p: string, ps: seq<string>, sep: string)
    requires ps != []
    ensures Join([p] + ps, sep) == p + sep + Join(ps, sep)
  {
    assert ([p] + ps)[1..] == ps;
  }

  /** One replacement moves the cut of the rest one piece on. */
  lemma ReplaceStep(s: string, from: string, to: string, pos: nat, i: nat)
    requires from != "" && FirstAt(s, from, pos, i)
    ensures pos <= i && i + |from| <= |s|
    ensures var s' := s[..i] + to + s[i + |from|..];
            && i + |to| <= |s'| && s'[i + |to|..] == s[i + |from|..]
            && s'[..i + |to|] + Join(Split(s'[i + |to|..], from), to) == s[..pos] + Join(Split(s[pos..], from), to)
  {
    SplitRest(s, from, pos, i);
    var ps := Split(s[i + |from|..], from);
    JoinTail(s[pos..i], ps, to);
    var s' := s[..i] + to + s[i + |from|..];
    hide *;
    assert s'[i + |to|..] == s[i + |from|..];
    assert s'[..i + |to|] == s[..pos] + s[pos..i] + to;
    var j := Join(ps, to);
    assert s[..pos] + (s[pos..i] + to + j) == s[..pos] + s[pos..i] + to + j;
  }

  /** The in-place loop: it ends for every non-empty from, also when to contains from, and
      never scans what it inserted. */
  method ReplaceAll(s0: string, from: string, to: string) returns (s: string)
    ensures s == Replaced(s0, from, to)
  {
    s := s0;
    if from != "" {
      var pos: nat := 0;
      var found := Find(s, from, pos);
      assert s0[0..] == s0;
      while found.Some?
        invariant pos <= |s| && found == Find(s, from, pos)
        invariant s[..pos] + Join(Split(s[pos..], from), to) == Replaced(s0, from, to)
        decreases |s| - pos, found.Some?
      {
        var i := found.value;
        ReplaceStep(s, from, to, pos, i);
        s := s[..i] + to + s[i + |from|..];
        pos := i + |to|;
        found := Find(s, from, pos);
      }
      OccursInRest(s, from, pos);
      SplitNotFound(s[pos..], from);
      assert s[..pos] + s[pos..] == s;
    }
  }

  /** Each replacement changes the length by the same amount. */
  lemma {:induction false} JoinLength(ps: seq<string>, a: string, b: string)
    requires ps != []
    ensures |Join(ps, b)| == |Join(ps, a)| + (|ps| - 1) * (|b| - |a|)
  {
    if |ps| > 1 {
      JoinLength(ps[1..], a, b);
      assert (|ps| - 1) * (|b| - |a|) == (|ps| - 2) * (|b| - |a|) + (|b| - |a|);
    }
  }

  /** ReplaceAll from left to right: the first occurrence is replaced, and then those in the
      rest; where there is none, nothing changes. */
  lemma ReplacesFirst(a: string, from: string, rest: string, to: string)
    requires from != ""
    ensures EndsPiece(a, from) ==> Replaced(a + from + rest, from, to) == a + to + Replaced(rest, from, to)
    ensures Free(a, from) ==> Replaced(a, from, to) == a
  {
    if EndsPiece(a, from) {
      var ps := [a] + Split(rest, from);
      SplitIsLeftmost(rest, from);
      SplitJoinsBack(rest, from);
      assert ps[1..] == Split(rest, from);
      SplitOfJoin(ps, from);
    }
    if Free(a, from) {
      SplitOfJoin([a], from);
    }
  }

  /** ReplaceAll replaces every one of the |Split| - 1 leftmost occurrences, once. */
  lemma ReplacedLength(s: string, from: string, to: string)
    requires from != ""
    ensures |Replaced(s, from, to)| == |s| + (|Split(s, from)| - 1) * (|to| - |from|)
  {
    JoinLength(Split(s, from), from, to);
    SplitJoinsBack(s, from);
  }

  // ---------------------------------------------------------------------------
  // Format
  // ---------------------------------------------------------------------------

  /** The pieces with the arguments between them; when they run out, the placeholder stays. */
  function Interleave(ps: seq<string>, args: seq<string>): string
    requires ps != []
  {
    if |ps| == 1 then ps[0]
    else if args == [] then ps[0] + "{}" + Interleave(ps[1..], [])
    else ps[0] + args[0] + Interleave(ps[1..], args[1..])
  }

  function Formatted(fmt: string, args: seq<string>): string {
    Interleave(Split(fmt, "{}"), args)
  }

  lemma InterleaveCons(c: char, ps: seq<string>, args: seq<string>)
    requires ps != []
    ensures Interleave([[c] + ps[0]] + ps[1..], args) == [c] + Interleave(ps, args)
  {
    var qs := [[c] + ps[0]] + ps[1..];
    assert qs[1..] == ps[1..];
    if |ps| > 1 {
      var x := if args == [] then "{}" else args[0];
      var t := Interleave(ps[1..], if args == [] then [] else args[1..]);
      assert ([c] + ps[0]) + x + t == [c] + (ps[0] + x + t);
    }
  }

  /** Where the scan stands: two characters of a placeholder, or one of text. */
  lemma SplitHere(s: string, sep: string, i: nat)
    requires |sep| == 2 && i < |s|
    ensures i + 1 < |s| && s[i] == sep[0] && s[i + 1] == sep[1] ==> Split(s[i..], sep) == [""] + Split(s[i + 2..], sep)
    ensures !(i + 1 < |s| && s[i] == sep[0] && s[i + 1] == sep[1]) ==>
              var r := Split(s[i + 1..], sep); Split(s[i..], sep) == [[s[i]] + r[0]] + r[1..]
  {
    var t := s[i..];
    if i + 1 < |s| && s[i] == sep[0] && s[i + 1] == sep[1] {
      assert sep <= t by { assert t[..2] == sep; }
      assert t[2..] == s[i + 2..];
    } else {
      assert t[1..] == s[i + 1..];
      if |t| == 1 {
        assert Split(s[i + 1..], sep) == [""] && [s[i]] + "" == t;
      }
    }
  }

  lemma InterleaveHere(rest: seq<string>, args: seq<string>)
    requires rest != []
    ensures Interleave([""] + rest, args) ==
            if args == [] then "{}" + Interleave(rest, args) else args[0] + Interleave(rest, args[1..])
  {
    assert ([""] + rest)[1..] == rest;
    assert "" + "{}" == "{}";
  }

  lemma Assoc(a: string, b: string, c: string)
    ensures a + b + c == a + (b + c)
  {
  }

  lemma FormatEnds(fmt: string, args: seq<string>)
    ensures Interleave(Split(fmt[0..], "{}"), args[0..]) == Formatted(fmt, args)
    ensures forall n: nat :: n <= |args| ==> Interleave(Split(fmt[|fmt|..], "{}"), args[n..]) == ""
  {
    assert fmt[0..] == fmt && args[0..] == args && fmt[|fmt|..] == "";
  }

  /** The scan of format_string, which writes to result as it goes. */
  method FormatString(fmt: string, args: seq<string>) returns (result: string)
    ensures result == Formatted(fmt, args)
  {
    hide Split, Interleave;
    result := "";
    var argIndex, i := 0, 0;
    FormatEnds(fmt, args);
    while i < |fmt|
      invariant 0 <= i <= |fmt| && 0 <= argIndex <= |args|
      invariant result + Interleave(Split(fmt[i..], "{}"), args[argIndex..]) == Formatted(fmt, args)
    {
      SplitHere(fmt, "{}", i);
      if i + 1 < |fmt| && fmt[i] == '{' && fmt[i + 1] == '}' {
        InterleaveHere(Split(fmt[i + 2..], "{}"), args[argIndex..]);
        if argIndex < |args| {
          assert args[argIndex..][1..] == args[argIndex + 1..];
          Assoc(result, args[argIndex], Interleave(Split(fmt[i + 2..], "{}"), args[argIndex + 1..]));
          result := result + args[argIndex];
          argIndex := argIndex + 1;
        } else {
          Assoc(result, "{}", Interleave(Split(fmt[i + 2..], "{}"), args[argIndex..]));
          result := result + "{}";
        }
        i := i + 2;
      } else {
        InterleaveCons(fmt[i], Split(fmt[i + 1..], "{}"), args[argIndex..]);
        Assoc(result, [fmt[i]], Interleave(Split(fmt[i + 1..], "{}"), args[argIndex..]));
        result := result + [fmt[i]];
        i := i + 1;
      }
    }
  }

  /** Format from left to right: the first placeholder takes the first argument, and the rest of
      the text the other arguments. */
  lemma FormatFillsFirst(a: string, rest: string, args: seq<string>)
    requires EndsPiece(a, "{}") && args != []
    ensures Formatted(a + "{}" + rest, args) == a + args[0] + Formatted(rest, args[1..])
  {
    var ps := [a] + Split(rest, "{}");
    SplitIsLeftmost(rest, "{}");
    SplitJoinsBack(rest, "{}");
    assert ps[1..] == Split(rest, "{}");
    SplitOfJoin(ps, "{}");
  }

  /** Without arguments, or without a placeholder, the text stays as it is. */
  lemma FormatKeeps(fmt: string, args: seq<string>)
    requires args == [] || Free(fmt, "{}")
    ensures Formatted(fmt, args) == fmt
  {
    SplitJoinsBack(fmt, "{}");
    if args == [] {
      InterleaveNone(Split(fmt, "{}"));
    } else {
      SplitOfJoin([fmt], "{}");
    }
  }

  /** With equal arguments, and enough of them, Format is ReplaceAll of the placeholder. */
  lemma {:induction false} InterleaveEqual(ps: seq<string>, args: seq<string>, x: string)
    requires ps != [] && |ps| - 1 <= |args| && forall i :: 0 <= i < |args| ==> args[i] == x
    ensures Interleave(ps, args) == Join(ps, x)
  {
    if |ps| > 1 {
      InterleaveEqual(ps[1..], args[1..], x);
    }
  }

  lemma FormatEqualIsReplace(fmt: string, args: seq<string>, x: string)
    requires |Split(fmt, "{}")| - 1 <= |args| && forall i :: 0 <= i < |args| ==> args[i] == x
    ensures Formatted(fmt, args) == Replaced(fmt, "{}", x)
  {
    InterleaveEqual(Split(fmt, "{}"), args, x);
  }

  lemma {:induction false} InterleaveNone(ps: seq<string>)
    requires ps != []
    ensures Interleave(ps, []) == Join(ps, "{}")
  {
    if |ps| > 1 {
      InterleaveNone(ps[1..]);
    }
  }

  lemma {:induction false} InterleaveSurplus(ps: seq<string>, args: seq<string>)
    requires |args| + 1 < |ps|
    ensures Interleave(ps, args) == Interleave(ps[..|args| + 1], args) + "{}" + Join(ps[|args| + 1..], "{}")
  {
    if args == [] {
      InterleaveNone(ps[1..]);
      assert ps[..1] == [ps[0]];
    } else {
      var n := |args|;
      InterleaveSurplus(ps[1..], args[1..]);
      assert ps[1..][..n] == ps[..n + 1][1..] && ps[1..][n..] == ps[n + 1..];
      var a, b := Interleave(ps[..n + 1][1..], args[1..]), Join(ps[n + 1..], "{}");
      assert ps[0] + args[0] + (a + "{}" + b) == (ps[0] + args[0] + a) + "{}" + b;
    }
  }

  /** Too few arguments: they fill the first placeholders and the rest of fmt, from the
      first unfilled placeholder on, appears literally. */
  lemma FormatSurplus(fmt: string, args: seq<string>)
    requires |args| + 1 < |Split(fmt, "{}")|
    ensures var ps, n := Split(fmt, "{}"), |args|;
            && Formatted(fmt, args) == Interleave(ps[..n + 1], args) + "{}" + Join(ps[n + 1..], "{}")
            && fmt == Join(ps[..n + 1], "{}") + "{}" + Join(ps[n + 1..], "{}")
  {
    var ps, n := Split(fmt, "{}"), |args|;
    InterleaveSurplus(ps, args);
    SplitJoinsBack(fmt, "{}");
    JoinSplitAt(ps, n + 1, "{}");
  }

  lemma {:induction false} JoinSplitAt(ps: seq<string>, k: nat, sep: string)
    requires 0 < k < |ps|
    ensures Join(ps, sep) == Join(ps[..k], sep) + sep + Join(ps[k..], sep)
    decreases k
  {
    if k == 1 {
      assert ps[..1] == [ps[0]];
    } else {
      JoinSplitAt(ps[1..], k - 1, sep);
      assert ps[1..][..k - 1] == ps[..k][1..] && ps[1..][k - 1..] == ps[k..];
      var a, b := Join(ps[..k][1..], sep), Join(ps[k..], sep);
      assert ps[0] + sep + (a + sep + b) == (ps[0] + sep + a) + sep + b;
    }
  }

  // ---------------------------------------------------------------------------
  // Unescape and round trips
  // ---------------------------------------------------------------------------

  const BACKSLASH := "\\"
  const ESCAPED := "\\\\"

  /** The scan of unescape_pattern: a pair of backslashes becomes one. */
  method UnescapePattern(pat: string) returns (out: string)
    ensures out == Replaced(pat, "\\\\", "\\")
  {
    out := "";
    var i := 0;
    assert pat[0..] == pat && pat[|pat|..] == "";
    while i < |pat|
      invariant 0 <= i <= |pat|
      invariant out + Join(Split(pat[i..], ESCAPED), BACKSLASH) == Replaced(pat, ESCAPED, BACKSLASH)
    {
      SplitHere(pat, ESCAPED, i);
      if pat[i] == '\\' && i + 1 < |pat| && pat[i + 1] == '\\' {
        JoinTail("", Split(pat[i + 2..], ESCAPED), BACKSLASH);
        assert "" + BACKSLASH == BACKSLASH == ['\\'];
        Assoc(out, ['\\'], Join(Split(pat[i + 2..], ESCAPED), BACKSLASH));
        out := out + ['\\'];
        i := i + 2;
      } else {
        JoinCons(pat[i], Split(pat[i + 1..], ESCAPED), BACKSLASH);
        Assoc(out, [pat[i]], Join(Split(pat[i + 1..], ESCAPED), BACKSLASH));
        out := out + [pat[i]];
        i := i + 1;
      }
    }
  }

  /** Replacing every a by sep is undone by replacing every sep by a, when no piece of s
      between two a's holds the first byte of sep. */
  lemma ReplaceRoundTrip(s: string, a: string, sep: string)
    requires a != "" && sep != ""
    requires forall k :: 0 <= k < |Split(s, a)| ==> sep[0] !in Split(s, a)[k]
    ensures Replaced(Replaced(s, a, sep), sep, a) == s
  {
    var ps := Split(s, a);
    forall k | 0 <= k < |ps|
      ensures EndsPiece(ps[k], sep) && Free(ps[k], sep)
    {
      NoFirstByte(ps[k], sep);
    }
    SplitOfJoin(ps, sep);
    SplitJoinsBack(s, a);
  }

  lemma NoFirstByte(p: string, sep: string)
    requires sep != "" && sep[0] !in p
    ensures EndsPiece(p, sep) && Free(p, sep)
  {
    forall i: nat | i < |p|
      ensures !OccursAt(p + sep, sep, i) && !OccursAt(p, sep, i)
    {
      assert (p + sep)[i] == p[i] && p[i] in p;
      if i + |sep| <= |p| {
        assert p[i..i + |sep|][0] == p[i];
      }
      if i + |sep| <= |p + sep| {
        assert (p + sep)[i..i + |sep|][0] == p[i];
      }
    }
  }

  lemma {:induction false} PiecesWithin(ps: seq<string>, sep: string, c: char)
    requires ps != [] && c !in Join(ps, sep)
    ensures forall k :: 0 <= k < |ps| ==> c !in ps[k]
  {
    if |ps| > 1 {
      var t := ps[0] + sep;
      assert forall x :: x in ps[0] ==> x in t + Join(ps[1..], sep);
      assert forall x :: x in Join(ps[1..], sep) ==> x in t + Join(ps[1..], sep);
      PiecesWithin(ps[1..], sep, c);
      forall k | 0 <= k < |ps|
        ensures c !in ps[k]
      {
        if k > 0 {
          assert ps[k] == ps[1..][k - 1];
        }
      }
    }
  }

  /** For every byte c not in s: all a to c and all c back to a returns s. */
  lemma ByteRoundTrip(s: string, a: string, c: char)
    requires a != "" && c !in s
    ensures Replaced(Replaced(s, a, [c]), [c], a) == s
  {
    SplitJoinsBack(s, a);
    PiecesWithin(Split(s, a), a, c);
    ReplaceRoundTrip(s, a, [c]);
  }

  /** Unescaping a string whose backslashes were all doubled returns the string. */
  lemma UnescapeUndoesEscape(s: string)
    ensures Replaced(Replaced(s, "\\", "\\\\"), "\\\\", "\\") == s
  {
    var ps := Split(s, BACKSLASH);
    SplitIsLeftmost(s, BACKSLASH);
    forall k | 0 <= k < |ps|
      ensures ESCAPED[0] !in ps[k]
    {
      FreeOfByte(ps[k]);
    }
    ReplaceRoundTrip(s, BACKSLASH, ESCAPED);
  }

  lemma FreeOfByte(p: string)
    requires EndsPiece(p, BACKSLASH) || Free(p, BACKSLASH)
    ensures '\\' !in p
  {
    forall i | 0 <= i < |p|
      ensures p[i] != '\\'
    {
      assert (p + BACKSLASH)[i..i + 1] == [p[i]] && p[i..i + 1] == [p[i]];
      assert !OccursAt(p + BACKSLASH, BACKSLASH, i) || !OccursAt(p, BACKSLASH, i);
    }
  }
}
