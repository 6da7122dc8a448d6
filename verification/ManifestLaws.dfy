/** What the manifest rewriting promises: unrecognised lines stay, every library of a closed
    or missing section gets its entry, and a second run changes nothing but in one case. */
module ManifestLaws {
  import opened Strings
  import opened Manifest

  /** sha256_file answers a hexadecimal digest, or nothing for a file it cannot read. */
  ghost predicate IsDigest(h: string) {
    forall c :: c in h ==> '0' <= c <= '9' || 'a' <= c <= 'f'
  }

  ghost predicate IsFileName(f: string) {
    && |f| >= 3 && f[|f| - 3..] == ".so"
    && '/' !in f && '\n' !in f && '\r' !in f
  }

  /** The library files of one directory, each listed once. */
  ghost predicate LibraryFiles(b: Build) {
    && (forall f :: f in b.sos ==> IsFileName(f) && IsDigest(b.hash(f)))
    && (forall i, k :: 0 <= i < k < |b.sos| ==> b.sos[i] != b.sos[k])
  }

  /** No name is contained in one listed after it. */
  ghost predicate Plain(b: Build) {
    LibraryFiles(b) && forall k :: 0 <= k < |b.sos| ==> Unshadowed(b, k)
  }

  ghost predicate Unshadowed(b: Build, k: nat)
    requires k < |b.sos|
  {
    forall i :: 0 <= i < k ==> !Contains(b.sos[k], b.sos[i])
  }

  // ---------------------------------------------------------------------------
  // An entry is recognised as the entry of its library, and of no other
  // ---------------------------------------------------------------------------

  function Body(b: Build, f: string): string {
    "build/" + f + ": sha256:" + b.hash(f)
  }

  lemma StripEntry(b: Build, f: string)
    requires IsDigest(b.hash(f))
    ensures Strip(b.Entry(f)) == Body(b, f)
  {
    var s := b.Entry(f);
    var t := "  " + Body(b, f);
    assert s == t + "\n" && s[..|s| - 1] == t;
    var last := t[|t| - 1];
    assert last == ':' || last in b.hash(f) by {
      if b.hash(f) != "" {
        assert last == b.hash(f)[|b.hash(f)| - 1];
      }
    }
    assert !IsSpace(last);
    assert StripRight(t) == t;
    assert s[|s| - 1] == '\n';
    assert StripRight(s) == t;
    var u := " " + Body(b, f);
    assert t[1..] == u && u[1..] == Body(b, f);
    assert Body(b, f)[0] == 'b';
    assert StripLeft(u) == Body(b, f);
  }

  lemma EndsInSo(g: string)
    requires IsFileName(g)
    ensures |g| >= 3 && g[|g| - 3] == '.' && g[|g| - 2] == 's' && g[|g| - 1] == 'o'
  {
    assert g[|g| - 3..][0] == '.' && g[|g| - 3..][1] == 's' && g[|g| - 3..][2] == 'o';
  }

  /** After the name, an entry holds no '.'. */
  lemma NoDotAfterName(b: Build, f: string, k: nat)
    requires IsDigest(b.hash(f)) && 6 + |f| <= k < |Body(b, f)|
    ensures Body(b, f)[k] != '.'
  {
    if 6 + |f| + 9 <= k {
      assert Body(b, f)[k] == b.hash(f)[k - 15 - |f|];
      assert b.hash(f)[k - 15 - |f|] in b.hash(f);
    }
  }

  lemma NameInBody(b: Build, f: string)
    ensures |Body(b, f)| > 6 + |f| && Body(b, f)[5] == '/' && Body(b, f)[6..6 + |f|] == f
    ensures forall k :: 0 <= k < 6 ==> Body(b, f)[k] != '.'
  {
    assert Body(b, f)[..6] == "build/";
    assert forall k :: 0 <= k < 6 ==> Body(b, f)[k] == "build/"[k];
  }

  lemma OccursCharwise(s: string, g: string, i: nat, k: nat)
    requires OccursAt(s, g, i) && k < |g|
    ensures s[i + k] == g[k]
  {
    assert s[i..i + |g|][k] == s[i + k];
  }

  /** The dot of ".so" in an occurrence of g lies in f, and so does what follows it. */
  lemma OccurrenceEndsInName(b: Build, f: string, g: string, i: nat)
    requires IsFileName(f) && IsFileName(g) && IsDigest(b.hash(f)) && OccursAt(Body(b, f), g, i)
    ensures i + |g| <= 6 + |f|
  {
    hide Body, IsFileName, IsDigest;
    EndsInSo(f);
    EndsInSo(g);
    NameInBody(b, f);
    var s, n := Body(b, f), |g|;
    OccursCharwise(s, g, i, n - 3);
    OccursCharwise(s, g, i, n - 2);
    if i + n - 3 >= 6 + |f| {
      NoDotAfterName(b, f, i + n - 3);
    }
    assert forall k :: 6 <= k < 6 + |f| ==> s[k] == s[6..6 + |f|][k - 6];
    assert s[6 + |f| - 2] == 's' && s[6 + |f| - 1] == 'o';
  }

  /** An occurrence of g in f's entry is one in f: g holds no '/', and the rest no '.'. */
  lemma OccurrenceIsInName(b: Build, f: string, g: string, i: nat)
    requires IsFileName(f) && IsFileName(g) && IsDigest(b.hash(f))
    requires OccursAt(Body(b, f), g, i)
    ensures Contains(f, g)
  {
    OccurrenceEndsInName(b, f, g, i);
    OccurrenceStartsInName(b, f, g, i);
    NameInBody(b, f);
    hide *;
    OccursInside(Body(b, f), f, g, 6, i);
    ContainsIff(f, g);
  }

  lemma OccurrenceStartsInName(b: Build, f: string, g: string, i: nat)
    requires IsFileName(g) && OccursAt(Body(b, f), g, i)
    ensures i >= 6
  {
    hide Body;
    NameInBody(b, f);
    EndsInSo(g);
    OccursCharwise(Body(b, f), g, i, |g| - 3);
    if i <= 5 {
      OccursCharwise(Body(b, f), g, i, 5 - i);
    }
  }

  lemma OccursInside(s: string, f: string, g: string, a: nat, i: nat)
    requires a + |f| <= |s| && s[a..a + |f|] == f && OccursAt(s, g, i) && a <= i && i + |g| <= a + |f|
    ensures OccursAt(f, g, i - a)
  {
    SubSlice(s, a, a + |f|, i - a, |g|);
  }

  lemma ContainsTail(s: string, g: string)
    requires Contains(s, "build/" + g)
    ensures Contains(s, g)
  {
    var i := Find(s, "build/" + g, 0).value;
    assert ("build/" + g)[6..] == g && s[i..i + 6 + |g|][6..] == s[i + 6..i + 6 + |g|];
    assert OccursAt(s, g, i + 6);
  }

  lemma ContainedInBody(b: Build, f: string, g: string)
    requires Contains(f, g)
    ensures Contains(Body(b, f), g)
  {
    var i := Find(f, g, 0).value;
    assert Body(b, f)[6 + i..6 + i + |g|] == f[i..i + |g|];
    assert OccursAt(Body(b, f), g, 6 + i);
  }

  /** An entry mentions the libraries whose names are contained in its own. */
  lemma EntryMentions(b: Build, f: string, g: string)
    requires LibraryFiles(b) && f in b.sos && g in b.sos
    ensures Mentions(Body(b, f), g) <==> Contains(f, g)
  {
    hide Body;
    var s := Body(b, f);
    if Mentions(s, g) {
      if !Contains(s, g) {
        ContainsTail(s, g);
      }
      OccurrenceIsInName(b, f, g, Find(s, g, 0).value);
    }
    if Contains(f, g) {
      ContainedInBody(b, f, g);
    }
  }

  lemma {:induction false} FirstIsMentioned(s: string, sos: seq<string>, k: nat)
    requires k < |sos| && Mentions(s, sos[k]) && sos[k] !in sos[..k]
    ensures Mentioned(s, sos) == Some(sos[k]) <==> forall i :: 0 <= i < k ==> !Mentions(s, sos[i])
  {
    hide Mentions;
    if k > 0 {
      assert sos[1..][..k - 1] == sos[..k][1..];
      assert sos[0] == sos[..k][0];
      FirstIsMentioned(s, sos[1..], k - 1);
      assert forall i :: 0 < i < k ==> sos[i] == sos[1..][i - 1];
    }
  }

  lemma EntryRecognisedIff(b: Build, k: nat)
    requires LibraryFiles(b) && k < |b.sos|
    ensures Mentioned(Strip(b.Entry(b.sos[k])), b.sos) == Some(b.sos[k]) <==> Unshadowed(b, k)
    ensures !IsHeading(Strip(b.Entry(b.sos[k])))
  {
    var f := b.sos[k];
    StripEntry(b, f);
    assert Body(b, f)[0] == 'b';
    assert OccursAt(f, f, 0);
    forall g | g in b.sos
      ensures Mentions(Body(b, f), g) <==> Contains(f, g)
    {
      EntryMentions(b, f, g);
    }
    FirstIsMentioned(Body(b, f), b.sos, k);
  }

  /** f's entry is read back as f's. */
  ghost predicate Clear(b: Build, f: string) {
    f in b.sos && Mentioned(Strip(b.Entry(f)), b.sos) == Some(f)
  }

  /** A library's entry is clear just when no library listed earlier is contained in its name. */
  lemma ClearIff(b: Build, k: nat)
    requires LibraryFiles(b) && k < |b.sos|
    ensures Clear(b, b.sos[k]) <==> Unshadowed(b, k)
  {
    EntryRecognisedIff(b, k);
  }

  lemma PlainFiles(b: Build)
    requires Plain(b)
    ensures LibraryFiles(b)
  {
  }

  lemma PlainIsClear(b: Build)
    requires LibraryFiles(b)
    ensures Plain(b) <==> forall f :: f in b.sos ==> Clear(b, f)
  {
    forall k | 0 <= k < |b.sos|
      ensures Clear(b, b.sos[k]) <==> Unshadowed(b, k)
    {
      ClearIff(b, k);
    }
    if forall f :: f in b.sos ==> Clear(b, f) {
      forall k | 0 <= k < |b.sos|
        ensures Unshadowed(b, k)
      {
        assert b.sos[k] in b.sos;
      }
    }
  }

  /** An entry is read back as that of some library, and never as a heading. */
  lemma EntryIsSome(b: Build, f: string)
    requires LibraryFiles(b) && f in b.sos
    ensures Mentioned(Strip(b.Entry(f)), b.sos).Some? && !IsHeading(Strip(b.Entry(f)))
  {
    StripEntry(b, f);
    assert Body(b, f)[0] == 'b';
    assert OccursAt(f, f, 0);
    EntryMentions(b, f, f);
    SomeMentioned(Body(b, f), b.sos, f);
  }

  lemma {:induction false} SomeMentioned(s: string, sos: seq<string>, f: string)
    requires f in sos && Mentions(s, f)
    ensures Mentioned(s, sos).Some?
  {
    hide Mentions;
    if sos[0] != f {
      SomeMentioned(s, sos[1..], f);
    }
  }

  /** Different libraries have different entries. */
  lemma EntriesDiffer(b: Build, f: string, g: string)
    requires LibraryFiles(b) && f in b.sos && g in b.sos && b.Entry(f) == b.Entry(g)
    ensures f == g
  {
    StripEntry(b, f);
    StripEntry(b, g);
    EntryMentions(b, f, g);
    EntryMentions(b, g, f);
    assert OccursAt(f, f, 0) && OccursAt(g, g, 0);
    EntryMentions(b, f, f);
    EntryMentions(b, g, g);
    hide Body;
    ContainedEachWay(f, g);
  }

  lemma ContainedEachWay(f: string, g: string)
    requires Contains(f, g) && Contains(g, f)
    ensures f == g
  {
    var i := Find(f, g, 0).value;
    assert OccursAt(f, g, i);
    var j := Find(g, f, 0).value;
    assert OccursAt(g, f, j);
    assert i == 0 && |f| == |g| && f[0..|f|] == f;
  }

  lemma {:induction false} MentionedIsBuilt(s: string, sos: seq<string>)
    ensures Mentioned(s, sos).Some? ==> Mentioned(s, sos).value in sos
  {
    if sos != [] {
      MentionedIsBuilt(s, sos[1..]);
    }
  }

  // ---------------------------------------------------------------------------
  // One pass over a list of lines
  // ---------------------------------------------------------------------------

  lemma {:induction false} PassConcat(b: Build, a: seq<string>, c: seq<string>, ffi: bool, done: set<string>)
    ensures b.Items(a + c, ffi, done) == b.Items(a, ffi, done) + b.Items(c, b.EndFfi(a, ffi), b.EndDone(a, ffi, done))
    ensures b.EndFfi(a + c, ffi) == b.EndFfi(c, b.EndFfi(a, ffi))
    ensures b.EndDone(a + c, ffi, done) == b.EndDone(c, b.EndFfi(a, ffi), b.EndDone(a, ffi, done))
    decreases |a|
  {
    hide Build.LineItems, Build.NextFfi, Build.NextDone;
    if a == [] {
      assert a + c == c;
    } else {
      assert (a + c)[1..] == a[1..] + c;
      PassConcat(b, a[1..], c, b.NextFfi(a[0], ffi), b.NextDone(a[0], ffi, done));
    }
  }

  lemma {:induction false} DoneGrows(b: Build, lines: seq<string>, ffi: bool, done: set<string>)
    ensures done <= b.EndDone(lines, ffi, done)
    decreases |lines|
  {
    if lines != [] {
      DoneGrows(b, lines[1..], b.NextFfi(lines[0], ffi), b.NextDone(lines[0], ffi, done));
    }
  }

  /** A run of entries comes through as it is and marks its libraries. */
  lemma {:induction false} FreshRun(b: Build, names: seq<string>, done: set<string>)
    requires LibraryFiles(b) && forall f :: f in names ==> Clear(b, f)
    ensures b.Items(b.Render(AllFresh(names)), true, done) == AllFresh(names)
    ensures b.EndFfi(b.Render(AllFresh(names)), true)
    ensures b.EndDone(b.Render(AllFresh(names)), true, done) == done + set f | f in names
    decreases |names|
  {
    hide Strip, Mentioned, IsHeading, Build.Entry, LibraryFiles;
    if names != [] {
      var f := names[0];
      assert Clear(b, f);
      EntryIsSome(b, f);
      FreshRun(b, names[1..], done + {f});
      var lines := b.Render(AllFresh(names));
      assert lines[0] == b.Entry(f) && lines[1..] == b.Render(AllFresh(names[1..]));
      assert names == [f] + names[1..];
      assert (set g | g in names) == {f} + set g | g in names[1..];
    }
  }

  lemma {:induction false} AbsentAreNames(names: seq<string>, done: set<string>)
    ensures forall f :: f in Absent(names, done) ==> f in names && f !in done
    ensures (forall f :: f in names ==> f in done) ==> Absent(names, done) == []
  {
    if names != [] {
      AbsentAreNames(names[1..], done + {names[0]});
      AbsentAreNames(names[1..], done);
    }
  }

  lemma OneLine(b: Build, line: string, ffi: bool, done: set<string>)
    ensures b.Items([line], ffi, done) == b.LineItems(line, ffi, done)
    ensures b.EndFfi([line], ffi) == b.NextFfi(line, ffi) && b.EndDone([line], ffi, done) == b.NextDone(line, ffi, done)
  {
    hide Build.LineItems, Build.NextFfi, Build.NextDone;
    assert [line][1..] == [];
  }

  /** A section's last line, read again after the entries added in front of it. */
  lemma ClosingLineStable(b: Build, line: string, done: set<string>)
    requires LibraryFiles(b) && !IsHeading(Strip(line)) && Mentioned(Strip(line), b.sos).None? && Closes(Strip(line))
    requires forall f :: f in Absent(b.sos, done) ==> Clear(b, f)
    ensures var out := b.Render(b.LineItems(line, true, done));
      && b.Items(out, true, done) == b.LineItems(line, true, done)
      && b.EndFfi(out, true) == b.NextFfi(line, true)
      && b.EndDone(out, true, done) == b.NextDone(line, true, done)
  {
    hide Strip, Mentioned, IsHeading, Closes, Build.Entry, LibraryFiles, Clear, Absent;
    var names := Absent(b.sos, done);
    AbsentAreNames(b.sos, done);
    AbsentAdds(b.sos, done);
    FreshRun(b, names, done);
    var run := b.Render(AllFresh(names));
    b.LineItemsRendered(line, true, done);
    PassConcat(b, run, [line], true, done);
    AbsentAreNames(b.sos, done + b.All());
    hide Build.Items, Build.EndFfi, Build.EndDone, Build.Render;
    OneLine(b, line, true, done + b.All());
  }

  lemma MarkedPlus(a: seq<Item>, c: seq<Item>)
    ensures Marked(a + c) == Marked(a) + Marked(c)
  {
    assert forall f :: Fresh(f) in a + c <==> Fresh(f) in a || Fresh(f) in c;
  }

  /** The libraries whose entries a line becomes. */
  lemma LineMarks(b: Build, line: string, ffi: bool, done: set<string>)
    ensures var s, marked := Strip(line), Marked(b.LineItems(line, ffi, done));
      if IsHeading(s) || !ffi then marked == {}
      else if Mentioned(s, b.sos).Some? then marked == {Mentioned(s, b.sos).value}
      else if Closes(s) then marked == set f | f in Absent(b.sos, done)
      else marked == {}
  {
    hide Strip, Mentioned, IsHeading, Closes, Absent;
    var absent := Absent(b.sos, done);
    FreshKeepsNone(absent);
    MarkedPlus(AllFresh(absent), [Kept(line)]);
    assert Marked([Kept(line)]) == {};
    assert Marked(AllFresh(absent)) == set f | f in absent by {
      assert forall f :: f in absent ==> Fresh(f) in AllFresh(absent);
    }
    if Mentioned(Strip(line), b.sos).Some? {
      assert Fresh(Mentioned(Strip(line), b.sos).value) in [Fresh(Mentioned(Strip(line), b.sos).value)];
    }
  }

  lemma LineStable(b: Build, line: string, ffi: bool, done: set<string>)
    requires LibraryFiles(b) && forall f :: f in Marked(b.LineItems(line, ffi, done)) ==> Clear(b, f)
    ensures var out := b.Render(b.LineItems(line, ffi, done));
      && b.Render(b.Items(out, ffi, done)) == out
      && b.EndFfi(out, ffi) == b.NextFfi(line, ffi)
      && b.EndDone(out, ffi, done) == b.NextDone(line, ffi, done)
  {
    hide Strip, Mentioned, IsHeading, Closes, Build.Entry, LibraryFiles, Clear, Absent;
    var s := Strip(line);
    LineMarks(b, line, ffi, done);
    if IsHeading(s) || !ffi || (Mentioned(s, b.sos).None? && !Closes(s)) {
      assert b.Render([Kept(line)]) == [line] && [line][1..] == [];
    } else if Mentioned(s, b.sos).Some? {
      var f := Mentioned(s, b.sos).value;
      MentionedIsBuilt(s, b.sos);
      FreshRun(b, [f], done);
      assert AllFresh([f]) == [Fresh(f)] by {
        assert [f][1..] == [];
      }
      assert (set g | g in [f]) == {f};
    } else {
      ClosingLineStable(b, line, done);
    }
  }

  /** A second pass over the lines of a first changes nothing, and ends in the same state. */
  lemma {:induction false} PassStable(b: Build, lines: seq<string>, ffi: bool, done: set<string>)
    requires LibraryFiles(b) && forall f :: f in Marked(b.Items(lines, ffi, done)) ==> Clear(b, f)
    ensures var out := b.Render(b.Items(lines, ffi, done));
      && b.Render(b.Items(out, ffi, done)) == out
      && b.EndFfi(out, ffi) == b.EndFfi(lines, ffi)
      && b.EndDone(out, ffi, done) == b.EndDone(lines, ffi, done)
    decreases |lines|
  {
    hide LibraryFiles, Clear, Marked, Build.LineItems, Build.NextFfi, Build.NextDone;
    if lines != [] {
      var ffi', done' := b.NextFfi(lines[0], ffi), b.NextDone(lines[0], ffi, done);
      var now, rest := b.LineItems(lines[0], ffi, done), b.Items(lines[1..], ffi', done');
      b.RenderConcat(now, rest);
      MarkedPlus(now, rest);
      LineStable(b, lines[0], ffi, done);
      PassStable(b, lines[1..], ffi', done');
      PassConcat(b, b.Render(now), b.Render(rest), ffi, done);
      b.RenderConcat(b.Items(b.Render(now), ffi, done), b.Items(b.Render(rest), ffi', done'));
    }
  }

  /** As long as nothing is done, every line stays. */
  lemma {:induction false} NothingDone(b: Build, lines: seq<string>, ffi: bool)
    requires b.sos != [] && b.EndDone(lines, ffi, {}) == {}
    ensures b.Render(b.Items(lines, ffi, {})) == lines
    decreases |lines|
  {
    hide Strip, Mentioned, IsHeading, Closes, Build.Entry, Absent;
    if lines != [] {
      var ffi', done' := b.NextFfi(lines[0], ffi), b.NextDone(lines[0], ffi, {});
      DoneGrows(b, lines[1..], ffi', done');
      assert done' == {};
      assert b.sos[0] in b.All();
      assert b.LineItems(lines[0], ffi, {}) == [Kept(lines[0])];
      NothingDone(b, lines[1..], ffi');
    }
  }

  // ---------------------------------------------------------------------------
  // Lines and text
  // ---------------------------------------------------------------------------

  ghost predicate IsLine(l: string) {
    l != "" && '\n' !in l[..|l| - 1]
  }

  ghost predicate Ended(l: string) {
    l != "" && l[|l| - 1] == '\n'
  }

  /** The lines of some text: only the last may lack its newline. */
  ghost predicate AreLines(ls: seq<string>) {
    && (forall k :: 0 <= k < |ls| ==> IsLine(ls[k]))
    && (forall k :: 0 <= k < |ls| - 1 ==> Ended(ls[k]))
  }

  ghost predicate LastEnded(ls: seq<string>) {
    ls != [] ==> Ended(ls[|ls| - 1])
  }

  lemma {:induction false} ConcatPlus(a: seq<string>, c: seq<string>)
    ensures Concat(a + c) == Concat(a) + Concat(c)
  {
    if a == [] {
      assert a + c == c;
    } else {
      assert (a + c)[1..] == a[1..] + c;
      ConcatPlus(a[1..], c);
    }
  }

  lemma FirstNewline(l: string, rest: string)
    requires IsLine(l)
    ensures Ended(l) ==> Find(l + rest, "\n", 0) == Some(|l| - 1)
    ensures !Ended(l) ==> Find(l, "\n", 0) == None
  {
    var s := l + rest;
    forall i: nat | i < |l| - 1
      ensures !OccursAt(s, "\n", i) && !OccursAt(l, "\n", i)
    {
      assert l[..|l| - 1][i] != '\n';
      assert s[i..i + 1][0] == l[i] && l[i..i + 1][0] == l[i];
    }
    if Ended(l) {
      assert OccursAt(s, "\n", |l| - 1);
    } else {
      assert l[|l| - 1..|l|][0] != '\n';
    }
  }

  lemma NoNewlineBefore(text: string, n: nat)
    requires n <= |text| && forall i: nat :: i < n ==> !OccursAt(text, "\n", i)
    ensures '\n' !in text[..n]
  {
    forall i | 0 <= i < n
      ensures text[i] != '\n'
    {
      assert !OccursAt(text, "\n", i);
      assert text[i..i + 1] == [text[i]];
    }
  }

  lemma FirstLine(text: string)
    requires text != ""
    ensures Find(text, "\n", 0).None? ==> IsLine(text) && !Ended(text)
    ensures Find(text, "\n", 0).Some? ==>
      var l := text[..Find(text, "\n", 0).value + 1]; IsLine(l) && Ended(l)
  {
    match Find(text, "\n", 0)
    case None =>
      NoNewlineBefore(text, |text|);
      assert text[..|text|] == text;
    case Some(i) =>
      NoNewlineBefore(text, i);
      assert text[..i + 1][..i] == text[..i];
      assert text[i..i + 1][0] == '\n';
  }

  lemma ConsLines(l: string, rest: seq<string>)
    requires IsLine(l) && Ended(l) && AreLines(rest)
    ensures AreLines([l] + rest) && (LastEnded([l] + rest) <==> LastEnded(rest))
  {
  }

  lemma SingleLine(l: string)
    requires IsLine(l)
    ensures AreLines([l]) && (LastEnded([l]) <==> Ended(l))
  {
  }

  lemma EndedTail(text: string, n: nat)
    requires n <= |text| && Ended(text[..n])
    ensures Ended(text) <==> text[n..] == "" || Ended(text[n..])
  {
    assert text == text[..n] + text[n..];
  }

  lemma {:induction false} ReadGivesLines(text: string)
    ensures AreLines(ReadLines(text))
    ensures text != "" ==> ReadLines(text) != []
    ensures LastEnded(ReadLines(text)) <==> (text == "" || Ended(text))
    decreases |text|
  {
    hide IsLine, Ended, AreLines, LastEnded, Find, Concat;
    if text == "" {
      NoLines();
    } else {
      FirstLine(text);
      match Find(text, "\n", 0)
      case None =>
        SingleLine(text);
      case Some(i) =>
        ReadGivesLines(text[i + 1..]);
        ConsLines(text[..i + 1], ReadLines(text[i + 1..]));
        EndedTail(text, i + 1);
    }
  }

  lemma NoLines()
    ensures AreLines([]) && LastEnded([])
  {
  }

  /** Writing lines and reading them again. */
  lemma {:induction false} ReadBack(ls: seq<string>)
    requires AreLines(ls)
    ensures ReadLines(Concat(ls)) == ls
    decreases |ls|
  {
    if ls != [] {
      var rest := Concat(ls[1..]);
      ReadBack(ls[1..]);
      FirstNewline(ls[0], rest);
      if Ended(ls[0]) {
        assert (ls[0] + rest)[..|ls[0]|] == ls[0] && (ls[0] + rest)[|ls[0]|..] == rest;
      } else {
        assert ls == [ls[0]];
        assert ls[0] + rest == ls[0];
      }
      assert ls == [ls[0]] + ls[1..];
    }
  }

  lemma LinesPlus(a: seq<string>, c: seq<string>)
    requires AreLines(a) && LastEnded(a) && AreLines(c)
    ensures AreLines(a + c)
    ensures LastEnded(c) ==> LastEnded(a + c)
  {
  }

  lemma {:induction false} FreshLines(b: Build, names: seq<string>)
    requires LibraryFiles(b) && forall f :: f in names ==> f in b.sos
    ensures AreLines(b.Render(AllFresh(names))) && LastEnded(b.Render(AllFresh(names)))
    ensures forall f :: f in names ==> b.Entry(f) in b.Render(AllFresh(names))
  {
    if names != [] {
      var f := names[0];
      var l := b.Entry(f);
      assert IsLine(l) && Ended(l) by {
        assert l[..|l| - 1] == "  build/" + f + ": sha256:" + b.hash(f);
      }
      FreshLines(b, names[1..]);
      LinesPlus([l], b.Render(AllFresh(names[1..])));
    }
  }

  lemma LineGivesLines(b: Build, line: string, ffi: bool, done: set<string>)
    requires LibraryFiles(b) && IsLine(line)
    ensures AreLines(b.Render(b.LineItems(line, ffi, done)))
    ensures Ended(line) ==> LastEnded(b.Render(b.LineItems(line, ffi, done)))
  {
    hide Strip, Mentioned, IsHeading, Closes, Build.Entry, Build.LineItems, LibraryFiles, Absent, IsLine, Ended;
    var s := Strip(line);
    b.LineItemsRendered(line, ffi, done);
    AbsentAreNames(b.sos, done);
    FreshLines(b, Absent(b.sos, done));
    LinesPlus(b.Render(AllFresh(Absent(b.sos, done))), [line]);
    if Mentioned(s, b.sos).Some? {
      MentionedIsBuilt(s, b.sos);
      FreshLines(b, [Mentioned(s, b.sos).value]);
      assert b.Render(AllFresh([Mentioned(s, b.sos).value])) == [b.Entry(Mentioned(s, b.sos).value)];
    }
  }

  lemma {:induction false} PassGivesLines(b: Build, lines: seq<string>, ffi: bool, done: set<string>)
    requires LibraryFiles(b) && AreLines(lines)
    ensures AreLines(b.Render(b.Items(lines, ffi, done)))
    ensures LastEnded(lines) ==> LastEnded(b.Render(b.Items(lines, ffi, done)))
    decreases |lines|
  {
    hide LibraryFiles, Build.NextFfi, Build.NextDone, Build.LineItems, IsLine, Ended;
    if lines != [] {
      var now := b.LineItems(lines[0], ffi, done);
      var rest := b.Items(lines[1..], b.NextFfi(lines[0], ffi), b.NextDone(lines[0], ffi, done));
      b.RenderConcat(now, rest);
      LineGivesLines(b, lines[0], ffi, done);
      PassGivesLines(b, lines[1..], b.NextFfi(lines[0], ffi), b.NextDone(lines[0], ffi, done));
      if |lines| > 1 {
        LinesPlus(b.Render(now), b.Render(rest));
      } else {
        assert rest == [];
        assert b.Render(now) + b.Render(rest) == b.Render(now);
      }
    }
  }

  // ---------------------------------------------------------------------------
  // A section of its own, at the end of the manifest
  // ---------------------------------------------------------------------------

  function OwnSection(b: Build): seq<string> {
    ["ffi:\n"] + b.Render(AllFresh(b.sos))
  }

  lemma HeadingLine(b: Build, ffi: bool, done: set<string>)
    ensures b.Items(["ffi:\n"], ffi, done) == [Kept("ffi:\n")]
    ensures b.EndFfi(["ffi:\n"], ffi)
    ensures b.EndDone(["ffi:\n"], ffi, done) == done
  {
    assert "ffi:\n"[..4] == "ffi:";
    assert StripRight("ffi:\n") == StripRight("ffi:") == "ffi:";
    assert Strip("ffi:\n") == "ffi:";
  }

  lemma OwnSectionPass(b: Build, ffi: bool, done: set<string>)
    requires LibraryFiles(b) && forall f :: f in b.sos ==> Clear(b, f)
    ensures b.Render(b.Items(OwnSection(b), ffi, done)) == OwnSection(b)
    ensures b.EndDone(OwnSection(b), ffi, done) == done + b.All()
  {
    hide Build.Items, Build.EndDone, Build.EndFfi, LibraryFiles, Clear;
    HeadingLine(b, ffi, done);
    FreshRun(b, b.sos, done);
    PassConcat(b, ["ffi:\n"], b.Render(AllFresh(b.sos)), ffi, done);
    b.RenderConcat([Kept("ffi:\n")], AllFresh(b.sos));
  }

  lemma OwnSectionLines(b: Build)
    requires LibraryFiles(b)
    ensures AreLines(OwnSection(b)) && LastEnded(OwnSection(b))
    ensures Concat(OwnSection(b)) == "ffi:\n" + Concat(b.Render(AllFresh(b.sos)))
  {
    FreshLines(b, b.sos);
    assert IsLine("ffi:\n");
    LinesPlus(["ffi:\n"], b.Render(AllFresh(b.sos)));
  }

  lemma {:induction false} BlankMentionsNone(sos: seq<string>)
    requires "" !in sos
    ensures Mentioned("", sos) == None
  {
    if sos != [] {
      assert !OccursAt("", sos[0], 0) && !OccursAt("", "build/" + sos[0], 0);
      BlankMentionsNone(sos[1..]);
    }
  }

  lemma BlankLine(b: Build, ffi: bool)
    requires LibraryFiles(b)
    ensures b.Render(b.Items(["\n"], ffi, {})) == if ffi then b.Render(AllFresh(Absent(b.sos, {}))) + ["\n"] else ["\n"]
  {
    hide Build.Entry, Absent, Mentioned, Build.LineItems, Build.Render;
    var items := b.LineItems("\n", ffi, {});
    assert "\n"[..0] == "";
    assert Strip("\n") == "";
    BlankMentionsNone(b.sos);
    b.LineItemsRendered("\n", ffi, {});
    assert b.Items(["\n"], ffi, {}) == items + [] == items;
  }

  lemma AppendedText(b: Build, text: string)
    requires b.sos != [] && b.EndDone(ReadLines(text), false, {}) == {}
    ensures b.Update(text) == text + "\n" + ("ffi:\n" + Concat(b.Render(AllFresh(b.sos))))
  {
    hide Build.Items, Build.EndDone, ReadLines, Build.Render, AllFresh;
    var ls, r := ReadLines(text), b.Render(AllFresh(b.sos));
    NothingDone(b, ls, false);
    ConcatPlus(ls, ["\nffi:\n"] + r);
    assert (["\nffi:\n"] + r)[1..] == r;
    assert "\nffi:\n" + Concat(r) == "\n" + ("ffi:\n" + Concat(r));
  }

  /** What is read back when nothing was recognised. */
  lemma AppendedLines(b: Build, text: string)
    requires LibraryFiles(b) && b.sos != [] && b.EndDone(ReadLines(text), false, {}) == {}
    ensures ReadLines(b.Update(text)) == ReadLines(text + "\n") + OwnSection(b)
  {
    hide *;
    var p := ReadLines(text + "\n");
    AppendedText(b, text);
    OwnSectionLines(b);
    ReadGivesLines(text + "\n");
    assert Ended(text + "\n") by {
      EndedByNewline(text);
    }
    LinesPlus(p, OwnSection(b));
    ConcatPlus(p, OwnSection(b));
    ReadBack(p + OwnSection(b));
  }

  lemma EndedByNewline(text: string)
    ensures Ended(text + "\n")
  {
  }

  /** Completing the text with a newline adds a blank line, or completes the last line. */
  lemma CompletedLines(text: string)
    ensures var ls := ReadLines(text);
      if text == "" || Ended(text) then ReadLines(text + "\n") == ls + ["\n"]
      else ls != [] && ReadLines(text + "\n") == ls[..|ls| - 1] + [ls[|ls| - 1] + "\n"]
  {
    hide ReadLines, Concat;
    var ls := ReadLines(text);
    ReadGivesLines(text);
    assert Concat(["\n"]) == "\n" by {
      ConcatOne("\n");
    }
    if text == "" || Ended(text) {
      assert IsLine("\n");
      LinesPlus(ls, ["\n"]);
      ConcatPlus(ls, ["\n"]);
      ReadBack(ls + ["\n"]);
    } else {
      var init, last := ls[..|ls| - 1], ls[|ls| - 1];
      var p := init + [last + "\n"];
      assert ls == init + [last];
      assert AreLines(p) by {
        assert (last + "\n")[..|last|] == last;
        assert last == last[..|last| - 1] + [last[|last| - 1]];
      }
      ConcatPlus(init, [last]);
      ConcatPlus(init, [last + "\n"]);
      ConcatOne(last);
      ConcatOne(last + "\n");
      assert Concat(p) == text + "\n";
      ReadBack(p);
    }
  }

  lemma ConcatOne(l: string)
    ensures Concat([l]) == l
  {
    assert [l][1..] == [];
  }

  lemma SameStripSamePass(b: Build, l: string, l': string, ffi: bool, done: set<string>)
    requires Strip(l) == Strip(l')
    ensures b.EndDone([l], ffi, done) == b.EndDone([l'], ffi, done)
  {
    hide Strip, Mentioned;
    assert [l][1..] == [] && [l'][1..] == [];
  }

  /** A pass over the manifest with its newline completed. */
  lemma CompletedPass(b: Build, text: string)
    requires LibraryFiles(b) && b.sos != [] && b.EndDone(ReadLines(text), false, {}) == {}
    ensures var out, ls := b.Render(b.Items(ReadLines(text + "\n"), false, {})), ReadLines(text);
      if Ended(text) && b.EndFfi(ls, false)
      then out == ls + (b.Render(AllFresh(Absent(b.sos, {}))) + ["\n"])
      else out == ReadLines(text + "\n")
  {
    hide *;
    var ls := ReadLines(text);
    CompletedLines(text);
    if text == "" || Ended(text) {
      PassConcat(b, ls, ["\n"], false, {});
      NothingDone(b, ls, false);
      b.RenderConcat(b.Items(ls, false, {}), b.Items(["\n"], b.EndFfi(ls, false), {}));
      BlankLine(b, b.EndFfi(ls, false));
      if text == "" {
        EmptyText(b);
      }
    } else {
      var init, last := ls[..|ls| - 1], ls[|ls| - 1];
      assert ls == init + [last];
      PassConcat(b, init, [last], false, {});
      PassConcat(b, init, [last + "\n"], false, {});
      StripNewline(last);
      SameStripSamePass(b, last, last + "\n", b.EndFfi(init, false), b.EndDone(init, false, {}));
      NothingDone(b, init + [last + "\n"], false);
    }
  }

  lemma EmptyText(b: Build)
    ensures !Ended("") && !b.EndFfi(ReadLines(""), false)
  {
  }

  lemma StripNewline(l: string)
    ensures Strip(l + "\n") == Strip(l)
  {
    assert (l + "\n")[..|l|] == l;
  }

  // ---------------------------------------------------------------------------
  // A second run
  // ---------------------------------------------------------------------------

  /** The text ends, with a newline, in an ffi section in which nothing was recognised. */
  ghost predicate Unsettled(b: Build, text: string) {
    && b.sos != []
    && Ended(text)
    && b.EndFfi(ReadLines(text), false)
    && b.EndDone(ReadLines(text), false, {}) == {}
  }

  /** What a second run reads, and what it makes of it, when the first recognised something. */
  lemma SecondRunAfterSome(b: Build, text: string)
    requires LibraryFiles(b) && b.sos != []
    requires b.EndDone(ReadLines(text), false, {}) != {}
    requires forall f :: f in b.EndDone(ReadLines(text), false, {}) ==> Clear(b, f)
    ensures b.EndDone(ReadLines(b.Update(text)), false, {}) == b.EndDone(ReadLines(text), false, {})
    ensures b.Update(b.Update(text)) == b.Update(text)
  {
    hide LibraryFiles, Clear, Marked, Build.EndDone, Build.Items, Build.Render, ReadLines, Concat;
    var ls := ReadLines(text);
    var out := b.Render(b.Items(ls, false, {}));
    assert b.NewLines(ls) == out;
    ReadGivesLines(text);
    PassGivesLines(b, ls, false, {});
    ReadBack(out);
    PassKeepsAndMarks(b, ls, false, {});
    PassStable(b, ls, false, {});
    assert b.NewLines(out) == out;
  }

  /** The same when it recognised nothing. */
  lemma SecondRunAfterNone(b: Build, text: string)
    requires LibraryFiles(b) && b.sos != [] && forall f :: f in b.sos ==> Clear(b, f)
    requires b.EndDone(ReadLines(text), false, {}) == {}
    ensures b.EndDone(ReadLines(b.Update(text)), false, {}) >= b.All()
    ensures b.Update(b.Update(text))
         == Concat(b.Render(b.Items(ReadLines(text + "\n"), false, {}))) + Concat(OwnSection(b))
  {
    hide LibraryFiles, Clear, Build.EndDone, Build.Items, Build.Render, ReadLines, Concat, OwnSection;
    var p, own := ReadLines(text + "\n"), OwnSection(b);
    AppendedLines(b, text);
    PassConcat(b, p, own, false, {});
    OwnSectionPass(b, b.EndFfi(p, false), b.EndDone(p, false, {}));
    b.RenderConcat(b.Items(p, false, {}), b.Items(own, b.EndFfi(p, false), b.EndDone(p, false, {})));
    assert b.sos[0] in b.All();
    assert b.NewLines(p + own) == b.Render(b.Items(p, false, {})) + own;
    ConcatPlus(b.Render(b.Items(p, false, {})), own);
  }

  lemma AddedIsLonger(b: Build, ls: seq<string>)
    requires b.sos != []
    ensures |Concat(ls + (b.Render(AllFresh(Absent(b.sos, {}))) + ["\n"]))| > |Concat(ls)| + 1
  {
    var missing := b.Render(AllFresh(Absent(b.sos, {})));
    ConcatPlus(ls, missing + ["\n"]);
    ConcatPlus(missing, ["\n"]);
    assert missing[0] == b.Entry(b.sos[0]);
    ConcatPlus(missing[..1], missing[1..]);
    assert missing == missing[..1] + missing[1..];
  }

  /** Clear builds make clear runs. */
  lemma AllClear(b: Build, lines: seq<string>)
    requires Plain(b)
    ensures LibraryFiles(b) && forall f :: f in b.sos ==> Clear(b, f)
    ensures forall f :: f in b.EndDone(lines, false, {}) ==> Clear(b, f)
  {
    hide Clear;
    PlainIsClear(b);
    DoneAreBuilt(b, lines, false, {});
  }

  /** The libraries whose entries a run writes. */
  ghost function WrittenBy(b: Build, text: string): set<string> {
    var done := b.EndDone(ReadLines(text), false, {});
    if done == {} then b.All() else done
  }

  lemma StableWhenClear(b: Build, text: string)
    requires LibraryFiles(b) && b.sos != [] && forall f :: f in WrittenBy(b, text) ==> Clear(b, f)
    ensures b.Update(b.Update(text)) == b.Update(text) <==> !Unsettled(b, text)
    ensures Unsettled(b, text) ==> |b.Update(b.Update(text))| > |b.Update(text)|
  {
    hide LibraryFiles, Clear, Build.EndDone, Build.Items, Build.Render, ReadLines, Concat, Build.Update, Build.EndFfi, Absent;
    if b.EndDone(ReadLines(text), false, {}) != {} {
      SecondRunAfterSome(b, text);
    } else {
      assert forall f :: f in b.sos ==> f in b.All();
      SecondRunAfterNone(b, text);
      CompletedPass(b, text);
      AppendedText(b, text);
      OwnSectionLines(b);
      AddedIsLonger(b, ReadLines(text));
    }
  }

  // ---------------------------------------------------------------------------
  // Entries that are read back as another library's
  // ---------------------------------------------------------------------------

  /** The libraries as which entries are read back. */
  ghost function Firsts(b: Build, names: seq<string>): (firsts: seq<string>)
    ensures |firsts| == |names|
  {
    if names == [] then []
    else
      var m := Mentioned(Strip(b.Entry(names[0])), b.sos);
      [if m.Some? then m.value else names[0]] + Firsts(b, names[1..])
  }

  /** A run of entries becomes as many entries, of the libraries they are read back as. */
  lemma {:induction false} FirstsRun(b: Build, names: seq<string>, done: set<string>)
    requires LibraryFiles(b) && forall f :: f in names ==> f in b.sos
    ensures b.Items(b.Render(AllFresh(names)), true, done) == AllFresh(Firsts(b, names))
    ensures b.EndFfi(b.Render(AllFresh(names)), true)
    ensures names != [] ==> b.EndDone(b.Render(AllFresh(names)), true, done) != {}
    decreases |names|
  {
    hide Strip, Mentioned, IsHeading, Build.Entry, LibraryFiles;
    if names != [] {
      var f := names[0];
      EntryIsSome(b, f);
      var lines, done' := b.Render(AllFresh(names)), b.NextDone(b.Entry(f), true, done);
      assert lines[0] == b.Entry(f) && lines[1..] == b.Render(AllFresh(names[1..]));
      FirstsRun(b, names[1..], done');
      DoneGrows(b, lines[1..], true, done');
      assert Mentioned(Strip(b.Entry(f)), b.sos).value in done';
    }
  }

  /** If one of them is misread, some entry changes. */
  lemma {:induction false} MisreadChanges(b: Build, names: seq<string>)
    requires LibraryFiles(b) && forall f :: f in names ==> f in b.sos
    requires exists f :: f in names && !Clear(b, f)
    ensures b.Render(AllFresh(Firsts(b, names))) != b.Render(AllFresh(names))
    decreases |names|
  {
    hide Strip, Mentioned, Build.Entry, LibraryFiles;
    var f, firsts := names[0], Firsts(b, names);
    EntryIsSome(b, f);
    MentionedIsBuilt(Strip(b.Entry(f)), b.sos);
    assert names == [f] + names[1..];
    var was, now := b.Render(AllFresh(names)), b.Render(AllFresh(firsts));
    assert was[0] == b.Entry(f) && now[0] == b.Entry(firsts[0]);
    if !Clear(b, f) {
      if b.Entry(f) == b.Entry(firsts[0]) {
        EntriesDiffer(b, f, firsts[0]);
      }
    } else {
      MisreadChanges(b, names[1..]);
      assert firsts[1..] == Firsts(b, names[1..]);
      assert was[1..] == b.Render(AllFresh(names[1..])) && now[1..] == b.Render(AllFresh(firsts[1..]));
    }
  }

  lemma {:induction false} RenderedCount(b: Build, items: seq<Item>)
    ensures |b.Render(items)| == |items|
  {
    if items != [] {
      RenderedCount(b, items[1..]);
    }
  }

  lemma {:induction false} FreshCount(names: seq<string>)
    ensures |AllFresh(names)| == |names|
  {
    if names != [] {
      FreshCount(names[1..]);
    }
  }

  lemma SameCount(b: Build, names: seq<string>)
    ensures |b.Render(AllFresh(Firsts(b, names)))| == |b.Render(AllFresh(names))| == |names|
  {
    RenderedCount(b, AllFresh(names));
    RenderedCount(b, AllFresh(Firsts(b, names)));
    FreshCount(names);
    FreshCount(Firsts(b, names));
  }

  /** A run in front of other lines changes them if it changes itself. */
  lemma RunInFront(b: Build, names: seq<string>, more: seq<string>, done: set<string>)
    requires LibraryFiles(b) && forall f :: f in names ==> f in b.sos
    requires exists f :: f in names && !Clear(b, f)
    ensures var out := b.Render(AllFresh(names)) + more;
      b.Render(b.Items(out, true, done)) != out && b.EndDone(out, true, done) != {}
  {
    hide LibraryFiles, Clear, Build.Items, Build.Render, AllFresh, Firsts, Build.EndDone, Build.EndFfi;
    var run := b.Render(AllFresh(names));
    FirstsRun(b, names, done);
    MisreadChanges(b, names);
    SameCount(b, names);
    PassConcat(b, run, more, true, done);
    var done' := b.EndDone(run, true, done);
    DoneGrows(b, more, true, done');
    b.RenderConcat(AllFresh(Firsts(b, names)), b.Items(more, true, done'));
    DifferInFront(b.Render(AllFresh(Firsts(b, names))), b.Render(b.Items(more, true, done')), run, more);
  }

  lemma DifferInFront<T>(a: seq<T>, x: seq<T>, c: seq<T>, y: seq<T>)
    requires |a| == |c| && a != c
    ensures a + x != c + y
  {
    assert (a + x)[..|a|] == a && (c + y)[..|c|] == c;
  }

  /** A line that marks libraries becomes a run of their entries, perhaps with the line behind. */
  lemma RunOfLine(b: Build, line: string, ffi: bool, done: set<string>) returns (names: seq<string>, kept: seq<string>)
    requires Marked(b.LineItems(line, ffi, done)) != {}
    ensures ffi && b.Render(b.LineItems(line, ffi, done)) == b.Render(AllFresh(names)) + kept
    ensures Marked(b.LineItems(line, ffi, done)) == (set f | f in names) && forall f :: f in names ==> f in b.sos
  {
    hide Strip, Mentioned, IsHeading, Closes, Build.Entry, Absent, Marked;
    var s := Strip(line);
    LineMarks(b, line, ffi, done);
    b.LineItemsRendered(line, ffi, done);
    if Mentioned(s, b.sos).Some? {
      var f := Mentioned(s, b.sos).value;
      MentionedIsBuilt(s, b.sos);
      assert AllFresh([f]) == [Fresh(f)];
      names, kept := [f], [];
    } else {
      names, kept := Absent(b.sos, done), [line];
      AbsentAreNames(b.sos, done);
    }
  }

  /** A line that becomes a misread entry. */
  lemma LineMisread(b: Build, line: string, ffi: bool, done: set<string>, more: seq<string>)
    requires LibraryFiles(b) && exists f :: f in Marked(b.LineItems(line, ffi, done)) && !Clear(b, f)
    ensures var out := b.Render(b.LineItems(line, ffi, done)) + more;
      b.Render(b.Items(out, ffi, done)) != out && b.EndDone(out, ffi, done) != {}
  {
    hide *;
    var names, kept := RunOfLine(b, line, ffi, done);
    RunInFront(b, names, kept + more, done);
    assert b.Render(AllFresh(names)) + kept + more == b.Render(AllFresh(names)) + (kept + more);
  }

  /** If a pass writes a misread entry, a second pass changes its lines. */
  lemma {:induction false} PassMisread(b: Build, lines: seq<string>, ffi: bool, done: set<string>)
    requires LibraryFiles(b) && exists f :: f in Marked(b.Items(lines, ffi, done)) && !Clear(b, f)
    ensures var out := b.Render(b.Items(lines, ffi, done));
      b.Render(b.Items(out, ffi, done)) != out && b.EndDone(out, ffi, done) != {}
    decreases |lines|
  {
    hide LibraryFiles, Clear, Marked, Build.LineItems, Build.NextFfi, Build.NextDone;
    assert lines != [] by {
      NoneMarked();
    }
    var ffi', done' := b.NextFfi(lines[0], ffi), b.NextDone(lines[0], ffi, done);
    var now, rest := b.LineItems(lines[0], ffi, done), b.Items(lines[1..], ffi', done');
    b.RenderConcat(now, rest);
    MarkedPlus(now, rest);
    if exists f :: f in Marked(now) && !Clear(b, f) {
      LineMisread(b, lines[0], ffi, done, b.Render(rest));
    } else {
      LineStable(b, lines[0], ffi, done);
      PassMisread(b, lines[1..], ffi', done');
      PassConcat(b, b.Render(now), b.Render(rest), ffi, done);
      b.RenderConcat(b.Items(b.Render(now), ffi, done), b.Items(b.Render(rest), ffi', done'));
      DifferBehind(b.Render(now), b.Render(b.Items(b.Render(rest), ffi', done')), b.Render(now), b.Render(rest));
    }
  }

  lemma NoneMarked()
    ensures Marked([]) == {}
  {
  }

  lemma SameText(a: seq<string>, c: seq<string>)
    requires AreLines(a) && AreLines(c)
    ensures Concat(a) == Concat(c) <==> a == c
  {
    ReadBack(a);
    ReadBack(c);
  }

  /** A second run changes a text into which the first wrote a misread entry. */
  lemma MisreadAfterSome(b: Build, text: string)
    requires LibraryFiles(b) && b.sos != [] && b.EndDone(ReadLines(text), false, {}) != {}
    requires exists f :: f in b.EndDone(ReadLines(text), false, {}) && !Clear(b, f)
    ensures b.Update(b.Update(text)) != b.Update(text)
  {
    hide LibraryFiles, Clear, Marked, Build.EndDone, Build.Items, Build.Render, ReadLines, Concat, AreLines;
    var ls := ReadLines(text);
    var out := b.Render(b.Items(ls, false, {}));
    assert b.NewLines(ls) == out;
    ReadGivesLines(text);
    PassGivesLines(b, ls, false, {});
    ReadBack(out);
    PassKeepsAndMarks(b, ls, false, {});
    PassMisread(b, ls, false, {});
    PassGivesLines(b, out, false, {});
    assert b.NewLines(out) == b.Render(b.Items(out, false, {}));
    SameText(b.NewLines(out), out);
  }

  /** The same for a section of its own. */
  lemma MisreadAfterNone(b: Build, text: string)
    requires LibraryFiles(b) && b.sos != [] && b.EndDone(ReadLines(text), false, {}) == {}
    requires exists f :: f in b.sos && !Clear(b, f)
    ensures b.Update(b.Update(text)) != b.Update(text)
  {
    hide LibraryFiles, Clear, Build.EndDone, Build.EndFfi, Build.Items, Build.Render;
    hide ReadLines, Concat, AreLines, Firsts, AllFresh;
    var p, run := ReadLines(text + "\n"), b.Render(AllFresh(b.sos));
    var front := p + ["ffi:\n"];
    AppendedLines(b, text);
    assert p + OwnSection(b) == front + run;
    var ffi, done := b.EndFfi(p, false), b.EndDone(p, false, {});
    HeadingLine(b, ffi, done);
    PassConcat(b, p, ["ffi:\n"], false, {});
    PassConcat(b, front, run, false, {});
    FirstsRun(b, b.sos, done);
    MisreadChanges(b, b.sos);
    SameCount(b, b.sos);
    var now, changed := b.Items(front, false, {}), b.Render(AllFresh(Firsts(b, b.sos)));
    b.RenderConcat(now, AllFresh(Firsts(b, b.sos)));
    assert b.NewLines(front + run) == b.Render(now) + changed;
    ReadGivesLines(b.Update(text));
    PassGivesLines(b, front + run, false, {});
    DifferBehind(b.Render(now), changed, front, run);
    SameText(b.Render(now) + changed, front + run);
    assert Concat(front + run) == b.Update(text);
  }

  lemma DifferBehind<T>(a: seq<T>, x: seq<T>, c: seq<T>, y: seq<T>)
    requires x != y && (|x| == |y| || |a| == |c|)
    ensures a + x != c + y
  {
    assert (a + x)[|a|..] == x && (c + y)[|c|..] == y;
    assert |a + x| == |a| + |x| && |c + y| == |c| + |y|;
  }

  /** Running the script twice is the same as running it once, for every build and every
      manifest, just when the manifest is settled and no library listed earlier has a name
      contained in that of a library whose entry the run writes. */
  lemma IdempotentIff(b: Build, text: string)
    requires LibraryFiles(b)
    ensures b.Update(b.Update(text)) == b.Update(text)
       <==> b.sos == []
            || (!Unsettled(b, text)
                && forall k :: 0 <= k < |b.sos| && b.sos[k] in WrittenBy(b, text) ==> Unshadowed(b, k))
    ensures Plain(b) && Unsettled(b, text) ==> |b.Update(b.Update(text))| > |b.Update(text)|
  {
    if b.sos != [] {
      WrittenAreClear(b, text);
      hide LibraryFiles, Clear, Unshadowed, Build.EndDone, Build.Update, ReadLines, Unsettled;
      if forall f :: f in WrittenBy(b, text) ==> Clear(b, f) {
        StableWhenClear(b, text);
      } else {
        AllMembersOf(b);
        if b.EndDone(ReadLines(text), false, {}) != {} {
          MisreadAfterSome(b, text);
        } else {
          MisreadAfterNone(b, text);
        }
      }
    }
  }

  lemma AllMembersOf(b: Build)
    ensures forall f :: f in b.All() <==> f in b.sos
  {
  }

  lemma WrittenAreClear(b: Build, text: string)
    requires LibraryFiles(b)
    ensures (forall f :: f in WrittenBy(b, text) ==> Clear(b, f))
       <==> forall k :: 0 <= k < |b.sos| && b.sos[k] in WrittenBy(b, text) ==> Unshadowed(b, k)
  {
    hide LibraryFiles, Clear, Unshadowed, Build.EndDone, ReadLines;
    DoneAreBuilt(b, ReadLines(text), false, {});
    AllMembersOf(b);
    forall k | 0 <= k < |b.sos|
      ensures Clear(b, b.sos[k]) <==> Unshadowed(b, k)
    {
      ClearIff(b, k);
    }
  }

  /** The builds for which every settled manifest stays as it is after one run. */
  lemma PlainIff(b: Build)
    requires LibraryFiles(b)
    ensures Plain(b) <==> forall text :: !Unsettled(b, text) ==> b.Update(b.Update(text)) == b.Update(text)
    ensures b.Update(b.Update("")) == b.Update("") <==> Plain(b)
  {
    hide Unshadowed, Build.EndDone, Build.Update, Unsettled;
    forall text
      ensures Plain(b) && !Unsettled(b, text) ==> b.Update(b.Update(text)) == b.Update(text)
    {
      IdempotentIff(b, text);
    }
    IdempotentIff(b, "");
    EmptyIsSettled(b);
  }

  lemma EmptyIsSettled(b: Build)
    ensures !Unsettled(b, "") && WrittenBy(b, "") == b.All()
    ensures forall k :: 0 <= k < |b.sos| ==> b.sos[k] in WrittenBy(b, "")
  {
  }

  /** A second run always settles the manifest. */
  lemma SecondRunSettles(b: Build, text: string)
    requires Plain(b)
    ensures b.Update(b.Update(b.Update(text))) == b.Update(b.Update(text))
  {
    if b.sos != [] {
      hide Plain, Build.EndDone, Build.Items, Build.Update, ReadLines;
      assert b.sos[0] in b.All();
      AllClear(b, ReadLines(text));
      if b.EndDone(ReadLines(text), false, {}) != {} {
        SecondRunAfterSome(b, text);
      } else {
        SecondRunAfterNone(b, text);
      }
      IdempotentIff(b, b.Update(text));
    }
  }

  /** A section that a blank line closes at once. */
  const CLOSED_SECTION: seq<string> := ["ffi:\n", "\n"]

  lemma BlankEnds(b: Build, lines: seq<string>)
    requires LibraryFiles(b) && b.EndFfi(lines, false)
    ensures b.EndDone(lines + ["\n"], false, {}) == b.All()
  {
    hide Build.EndFfi, Build.EndDone, Mentioned;
    PassConcat(b, lines, ["\n"], false, {});
    assert Strip("\n") == "";
    BlankMentionsNone(b.sos);
    var done := b.EndDone(lines, false, {});
    DoneAreBuilt(b, lines, false, {});
    OneLine(b, "\n", true, done);
    assert done + b.All() == b.All();
  }

  /** Its first run lists every library, and the second finds the section open before its end. */
  lemma ClosedSection(b: Build)
    requires LibraryFiles(b) && b.sos != []
    ensures var text := Concat(CLOSED_SECTION);
            b.EndDone(ReadLines(b.Update(text)), false, {}) == b.All() && b.All() != {}
  {
    hide LibraryFiles, Build.EndFfi, Build.EndDone, Build.Items, Build.Render, Concat, ReadLines, AllFresh, Absent, AreLines;
    var ls, heading, names := CLOSED_SECTION, ["ffi:\n"], Absent(b.sos, {});
    var run := b.Render(AllFresh(names));
    ClosedLines();
    ReadBack(ls);
    AbsentAreNames(b.sos, {});
    HeadingLine(b, false, {});
    RenderKept(b, "ffi:\n");
    assert ls == heading + ["\n"];
    PassConcat(b, heading, ["\n"], false, {});
    BlankLine(b, true);
    BlankEnds(b, heading);
    assert b.sos[0] in b.All();
    var out := b.Render(b.Items(ls, false, {}));
    b.RenderConcat(b.Items(heading, false, {}), b.Items(["\n"], true, {}));
    assert out == heading + run + ["\n"];
    assert b.NewLines(ls) == out;
    PassGivesLines(b, ls, false, {});
    ReadBack(out);
    FirstsRun(b, names, {});
    PassConcat(b, heading, run, false, {});
    BlankEnds(b, heading + run);
  }

  lemma ClosedLines()
    ensures AreLines(CLOSED_SECTION)
  {
    assert IsLine("ffi:\n") && IsLine("\n");
  }

  lemma RenderKept(b: Build, line: string)
    ensures b.Render([Kept(line)]) == [line]
  {
    assert [Kept(line)][1..] == [];
  }

  /** The builds for which a third run never changes anything.  For any other, each run over a
      closed section lists anew the libraries whose entries it misreads. */
  lemma SettlesIff(b: Build)
    requires LibraryFiles(b)
    ensures Plain(b) <==> forall text :: b.Update(b.Update(b.Update(text))) == b.Update(b.Update(text))
    ensures var text := Concat(CLOSED_SECTION);
            b.Update(b.Update(b.Update(text))) == b.Update(b.Update(text)) <==> Plain(b)
  {
    hide Unshadowed, Build.EndDone, Build.Update, ReadLines, Concat;
    forall text
      ensures Plain(b) ==> b.Update(b.Update(b.Update(text))) == b.Update(b.Update(text))
    {
      if Plain(b) {
        SecondRunSettles(b, text);
      }
    }
    if b.sos != [] {
      ClosedSection(b);
      AllMembersOf(b);
      IdempotentIff(b, b.Update(Concat(CLOSED_SECTION)));
    }
  }

  /** The line neither opens nor closes a section and is no library's entry. */
  ghost predicate Neutral(b: Build, line: string) {
    !IsHeading(Strip(line)) && Mentioned(Strip(line), b.sos).None? && !Closes(Strip(line))
  }

  lemma {:induction false} OpenToTheEnd(b: Build, lines: seq<string>)
    requires b.sos != []
    ensures b.EndDone(lines, true, {}) == {} && b.EndFfi(lines, true)
       <==> forall k :: 0 <= k < |lines| ==> IsHeading(Strip(lines[k])) || Neutral(b, lines[k])
  {
    hide Strip, Mentioned, IsHeading, Closes;
    if lines != [] {
      var rest := lines[1..];
      OpenToTheEnd(b, rest);
      assert b.sos[0] in b.All();
      DoneGrows(b, rest, b.NextFfi(lines[0], true), b.NextDone(lines[0], true, {}));
      assert lines == [lines[0]] + rest;
    }
  }

  ghost predicate Heading(line: string) {
    IsHeading(Strip(line))
  }

  /** There is an ffi heading, and only headings and neutral lines come after one. */
  ghost predicate OnlyNeutralAfterHeading(b: Build, lines: seq<string>) {
    && (exists h :: 0 <= h < |lines| && Heading(lines[h]))
    && (forall h, k :: 0 <= h < k < |lines| && Heading(lines[h]) ==> Heading(lines[k]) || Neutral(b, lines[k]))
  }

  lemma HeadingFirst(b: Build, lines: seq<string>)
    requires lines != [] && Heading(lines[0])
    ensures OnlyNeutralAfterHeading(b, lines)
       <==> forall k :: 0 <= k < |lines| - 1 ==> Heading(lines[1..][k]) || Neutral(b, lines[1..][k])
  {
    hide Heading, Neutral;
    var rest := lines[1..];
    if OnlyNeutralAfterHeading(b, lines) {
      forall k | 0 <= k < |rest|
        ensures Heading(rest[k]) || Neutral(b, rest[k])
      {
        assert rest[k] == lines[k + 1];
      }
    }
  }

  lemma HeadingLater(b: Build, lines: seq<string>)
    requires lines != [] && !Heading(lines[0])
    ensures OnlyNeutralAfterHeading(b, lines) <==> OnlyNeutralAfterHeading(b, lines[1..])
  {
    hide Heading, Neutral;
    var rest := lines[1..];
    assert forall k :: 0 <= k < |rest| ==> rest[k] == lines[k + 1];
    if OnlyNeutralAfterHeading(b, rest) {
      var h :| 0 <= h < |rest| && Heading(rest[h]);
      assert Heading(lines[h + 1]);
    }
    if OnlyNeutralAfterHeading(b, lines) {
      var h :| 0 <= h < |lines| && Heading(lines[h]);
      assert Heading(rest[h - 1]);
    }
  }

  /** The exceptional case of IdempotentIff, read off the text. */
  lemma {:induction false} UnsettledIff(b: Build, lines: seq<string>)
    requires b.sos != []
    ensures b.EndDone(lines, false, {}) == {} && b.EndFfi(lines, false) <==> OnlyNeutralAfterHeading(b, lines)
    decreases |lines|
  {
    hide Strip, Mentioned, IsHeading, Closes, Neutral, OnlyNeutralAfterHeading;
    if lines == [] {
      NoHeading(b);
    } else {
      var rest := lines[1..];
      UnsettledIff(b, rest);
      OpenToTheEnd(b, rest);
      if Heading(lines[0]) {
        HeadingFirst(b, lines);
      } else {
        HeadingLater(b, lines);
      }
    }
  }

  lemma NoHeading(b: Build)
    ensures !OnlyNeutralAfterHeading(b, [])
  {
  }

  /** Such a manifest exists for every build. */
  lemma BareHeadingIsUnsettled(b: Build)
    requires b.sos != []
    ensures Unsettled(b, "ffi:\n")
  {
    HeadingLine(b, false, {});
    assert IsLine("ffi:\n") && AreLines(["ffi:\n"]);
    ConcatOne("ffi:\n");
    ReadBack(["ffi:\n"]);
  }

  // ---------------------------------------------------------------------------
  // Completeness and preservation
  // ---------------------------------------------------------------------------

  function KeptLines(items: seq<Item>): seq<string> {
    if items == [] then []
    else (if items[0].Kept? then [items[0].line] else []) + KeptLines(items[1..])
  }

  /** The lines that are not entries of an ffi section, in order. */
  function Unrecognised(b: Build, lines: seq<string>, ffi: bool): seq<string> {
    if lines == [] then []
    else
      var s := Strip(lines[0]);
      (if ffi && !IsHeading(s) && Mentioned(s, b.sos).Some? then [] else [lines[0]])
      + Unrecognised(b, lines[1..], b.NextFfi(lines[0], ffi))
  }

  lemma {:induction false} KeptPlus(a: seq<Item>, c: seq<Item>)
    ensures KeptLines(a + c) == KeptLines(a) + KeptLines(c)
  {
    if a == [] {
      assert a + c == c;
    } else {
      assert (a + c)[1..] == a[1..] + c;
      KeptPlus(a[1..], c);
    }
  }

  lemma {:induction false} FreshKeepsNone(names: seq<string>)
    ensures KeptLines(AllFresh(names)) == []
    ensures forall x :: x in AllFresh(names) <==> x.Fresh? && x.name in names
  {
    if names != [] {
      FreshKeepsNone(names[1..]);
      assert names == [names[0]] + names[1..];
    }
  }

  /** Every unrecognised line stays, in order, and the entries are exactly those of the libraries done. */
  lemma {:induction false} PassKeepsAndMarks(b: Build, lines: seq<string>, ffi: bool, done: set<string>)
    ensures KeptLines(b.Items(lines, ffi, done)) == Unrecognised(b, lines, ffi)
    ensures b.EndDone(lines, ffi, done) == done + Marked(b.Items(lines, ffi, done))
    decreases |lines|
  {
    hide Strip, Mentioned, IsHeading, Closes, Build.LineItems;
    if lines != [] {
      var ffi', done' := b.NextFfi(lines[0], ffi), b.NextDone(lines[0], ffi, done);
      var now, rest := b.LineItems(lines[0], ffi, done), b.Items(lines[1..], ffi', done');
      LineKeepsAndMarks(b, lines[0], ffi, done);
      PassKeepsAndMarks(b, lines[1..], ffi', done');
      KeptPlus(now, rest);
      assert Marked(now + rest) == Marked(now) + Marked(rest) by {
        assert forall f :: Fresh(f) in now + rest <==> Fresh(f) in now || Fresh(f) in rest;
      }
    }
  }

  /** The libraries that have an entry among the items. */
  function Marked(items: seq<Item>): set<string> {
    set x | x in items && x.Fresh? :: x.name
  }

  lemma LineKeepsAndMarks(b: Build, line: string, ffi: bool, done: set<string>)
    ensures var s, items := Strip(line), b.LineItems(line, ffi, done);
      && KeptLines(items) == (if ffi && !IsHeading(s) && Mentioned(s, b.sos).Some? then [] else [line])
      && b.NextDone(line, ffi, done) == done + Marked(items)
  {
    hide Strip, Mentioned, IsHeading, Closes, Absent, Marked;
    LineMarks(b, line, ffi, done);
    var absent := Absent(b.sos, done);
    KeptPlus(AllFresh(absent), [Kept(line)]);
    FreshKeepsNone(absent);
    AbsentAdds(b.sos, done);
    assert [Kept(line)][1..] == [];
    assert done + (set f | f in b.sos) == done + b.All();
  }

  lemma {:induction false} MarkedIsRendered(b: Build, items: seq<Item>, f: string)
    requires f in Marked(items)
    ensures b.Entry(f) in b.Render(items)
  {
    assert items == [items[0]] + items[1..];
    if items[0] != Fresh(f) {
      MarkedIsRendered(b, items[1..], f);
    }
  }

  /** The new text, cut into old lines and entries: every line that is no entry of an ffi
      section stays, verbatim and in order, and the rest are current entries of the libraries
      the script recognised or completed. When it recognised none, the text itself stays whole. */
  lemma UpdatePreserves(b: Build, text: string) returns (items: seq<Item>)
    ensures KeptLines(items) == Unrecognised(b, ReadLines(text), false)
    ensures Marked(items) == b.EndDone(ReadLines(text), false, {})
    ensures b.sos != [] && Marked(items) != {} ==> b.Update(text) == Concat(b.Render(items))
    ensures Marked(items) == {} ==> text <= b.Update(text)
  {
    hide Build.Items, Build.EndDone, ReadLines, Build.Entry;
    var ls := ReadLines(text);
    items := b.Items(ls, false, {});
    PassKeepsAndMarks(b, ls, false, {});
    if b.sos != [] {
      if Marked(items) == {} {
        AppendedText(b, text);
      } else {
        assert b.NewLines(ls) == b.Render(items) + [] == b.Render(items);
      }
    }
  }

  lemma EntriesAfterSome(b: Build, text: string)
    requires Plain(b) && b.sos != []
    requires b.EndDone(ReadLines(text), false, {}) != {}
    ensures forall f :: f in b.EndDone(ReadLines(text), false, {}) ==> b.Entry(f) in ReadLines(b.Update(text))
  {
    hide Plain, Build.EndDone, Build.Items, Build.Entry, ReadLines, Build.Render, Concat, Marked;
    PlainFiles(b);
    var ls := ReadLines(text);
    var items := b.Items(ls, false, {});
    ReadGivesLines(text);
    PassGivesLines(b, ls, false, {});
    ReadBack(b.Render(items));
    assert b.NewLines(ls) == b.Render(items);
    PassKeepsAndMarks(b, ls, false, {});
    forall f | f in Marked(items)
      ensures b.Entry(f) in b.Render(items)
    {
      MarkedIsRendered(b, items, f);
    }
  }

  lemma AllMembers(b: Build, f: string)
    ensures f in b.All() <==> f in b.sos
  {
  }

  // ---------------------------------------------------------------------------
  // Exactly when every library ends up listed
  // ---------------------------------------------------------------------------

  /** The line ends an ffi section that is open before it. */
  ghost predicate EndsSection(b: Build, line: string) {
    !Heading(line) && Mentioned(Strip(line), b.sos).None? && Closes(Strip(line))
  }

  /** Before line k an ffi section is open: after some heading no line ended it. */
  ghost predicate OpenAt(b: Build, lines: seq<string>, k: nat) {
    exists h :: 0 <= h < k <= |lines| && HeadingOpens(b, lines, h, k)
  }

  ghost predicate HeadingOpens(b: Build, lines: seq<string>, h: nat, k: nat)
    requires h < k <= |lines|
  {
    Heading(lines[h]) && forall j :: h < j < k ==> !EndsSection(b, lines[j])
  }

  /** Line k stands in an open ffi section and is f's entry, or ends the section. */
  ghost predicate RecognisedAt(b: Build, lines: seq<string>, f: string, k: nat)
    requires k < |lines|
  {
    && OpenAt(b, lines, k) && !Heading(lines[k])
    && (Mentioned(Strip(lines[k]), b.sos) == Some(f) || EndsSection(b, lines[k]))
  }

  ghost predicate Recognised(b: Build, lines: seq<string>, f: string) {
    exists k :: 0 <= k < |lines| && RecognisedAt(b, lines, f, k)
  }

  lemma {:induction false} OpenIff(b: Build, lines: seq<string>, k: nat)
    requires k <= |lines|
    ensures b.EndFfi(lines[..k], false) <==> OpenAt(b, lines, k)
    decreases k
  {
    hide Strip, Mentioned, IsHeading, Closes;
    if k > 0 {
      var before, line := lines[..k - 1], lines[k - 1];
      assert lines[..k] == before + [line];
      PassConcat(b, before, [line], false, {});
      assert [line][1..] == [];
      OpenIff(b, lines, k - 1);
      OpenStep(b, lines, k);
    }
  }

  lemma OpenStep(b: Build, lines: seq<string>, k: nat)
    requires 0 < k <= |lines|
    ensures OpenAt(b, lines, k) <==> Heading(lines[k - 1]) || (OpenAt(b, lines, k - 1) && !EndsSection(b, lines[k - 1]))
  {
    hide Heading, EndsSection;
    if OpenAt(b, lines, k) {
      var h :| 0 <= h < k && HeadingOpens(b, lines, h, k);
      assert h < k - 1 ==> HeadingOpens(b, lines, h, k - 1);
    }
    if Heading(lines[k - 1]) {
      assert HeadingOpens(b, lines, k - 1, k);
    } else if OpenAt(b, lines, k - 1) && !EndsSection(b, lines[k - 1]) {
      var h :| 0 <= h < k - 1 && HeadingOpens(b, lines, h, k - 1);
      assert HeadingOpens(b, lines, h, k);
    }
  }

  /** The libraries done, read off the lines. */
  lemma {:induction false} DoneIff(b: Build, lines: seq<string>, f: string, n: nat)
    requires f in b.sos && n <= |lines|
    ensures f in b.EndDone(lines[..n], false, {}) <==> exists k :: 0 <= k < n && RecognisedAt(b, lines, f, k)
    decreases n
  {
    hide Strip, Mentioned, IsHeading, Closes, RecognisedAt;
    if n > 0 {
      var before, line := lines[..n - 1], lines[n - 1];
      assert lines[..n] == before + [line];
      PassConcat(b, before, [line], false, {});
      assert [line][1..] == [];
      OpenIff(b, lines, n - 1);
      DoneIff(b, lines, f, n - 1);
      RecognisedAtIff(b, lines, f, n - 1, b.EndDone(before, false, {}));
    }
  }

  lemma RecognisedAtIff(b: Build, lines: seq<string>, f: string, k: nat, done: set<string>)
    requires k < |lines| && f in b.sos
    ensures f in b.NextDone(lines[k], OpenAt(b, lines, k), done) <==> f in done || RecognisedAt(b, lines, f, k)
  {
    hide Strip, Mentioned, IsHeading, Closes, OpenAt;
    AllMembers(b, f);
  }

  lemma DoneIsRecognised(b: Build, lines: seq<string>)
    ensures forall f :: f in b.sos ==> (f in b.EndDone(lines, false, {}) <==> Recognised(b, lines, f))
    ensures b.EndDone(lines, false, {}) == {} <==> forall f :: f in b.sos ==> !Recognised(b, lines, f)
  {
    hide Strip, Mentioned, IsHeading, Closes, RecognisedAt, Build.EndDone;
    assert lines[..|lines|] == lines;
    forall f | f in b.sos
      ensures f in b.EndDone(lines, false, {}) <==> Recognised(b, lines, f)
    {
      DoneIff(b, lines, f, |lines|);
    }
    DoneAreBuilt(b, lines, false, {});
  }

  lemma {:induction false} DoneAreBuilt(b: Build, lines: seq<string>, ffi: bool, done: set<string>)
    requires forall f :: f in done ==> f in b.sos
    ensures forall f :: f in b.EndDone(lines, ffi, done) ==> f in b.sos
    decreases |lines|
  {
    hide Strip, IsHeading, Closes;
    if lines != [] {
      MentionedIsBuilt(Strip(lines[0]), b.sos);
      DoneAreBuilt(b, lines[1..], b.NextFfi(lines[0], ffi), b.NextDone(lines[0], ffi, done));
    }
  }

  /** A second reading recognises every library just when the first recognised none or all,
      and what it recognises is listed. */
  lemma CompleteIff(b: Build, text: string)
    requires Plain(b) && b.sos != []
    ensures var before, after := ReadLines(text), ReadLines(b.Update(text));
      (forall f :: f in b.sos ==> Recognised(b, after, f))
      <==> (forall f :: f in b.sos ==> !Recognised(b, before, f)) || forall f :: f in b.sos ==> Recognised(b, before, f)
    ensures var after := ReadLines(b.Update(text));
      forall f :: f in b.sos && Recognised(b, after, f) ==> b.Entry(f) in after
  {
    hide Plain, Build.EndDone, Build.Items, Build.Entry, Build.Update, ReadLines, Build.Render, AllFresh, Recognised;
    AllClear(b, ReadLines(text));
    DoneIsRecognised(b, ReadLines(text));
    DoneIsRecognised(b, ReadLines(b.Update(text)));
    if b.EndDone(ReadLines(text), false, {}) != {} {
      SecondRunAfterSome(b, text);
      EntriesAfterSome(b, text);
    } else {
      SecondRunAfterNone(b, text);
      AppendedLines(b, text);
      FreshLines(b, b.sos);
    }
  }

  lemma {:induction false} RenderedLines(b: Build, items: seq<Item>, line: string)
    ensures line in b.Render(items) <==> line in KeptLines(items) || exists f :: f in Marked(items) && b.Entry(f) == line
  {
    hide Build.Entry;
    if items != [] {
      var rest := items[1..];
      RenderedLines(b, rest, line);
      assert items == [items[0]] + rest;
      assert Marked(items) == Marked(rest) + Marked([items[0]]) by {
        assert forall x :: x in items <==> x == items[0] || x in rest;
      }
      if items[0].Fresh? {
        assert items[0].name in Marked(items) by {
          assert items[0] in items;
        }
        assert Marked([items[0]]) == {items[0].name} by {
          assert items[0] in [items[0]];
        }
      } else {
        assert Marked([items[0]]) == {};
      }
    }
  }

  /** An entry among the old lines stays where it is or is recognised. */
  lemma {:induction false} OldEntryStays(b: Build, lines: seq<string>, ffi: bool, done: set<string>, f: string)
    requires Clear(b, f) && b.Entry(f) in lines
    ensures b.Entry(f) in Unrecognised(b, lines, ffi) || f in b.EndDone(lines, ffi, done)
    decreases |lines|
  {
    hide Strip, Mentioned, IsHeading, Closes, Build.Entry;
    var ffi', done' := b.NextFfi(lines[0], ffi), b.NextDone(lines[0], ffi, done);
    if lines[0] == b.Entry(f) {
      DoneGrows(b, lines[1..], ffi', done');
    } else {
      OldEntryStays(b, lines[1..], ffi', done', f);
    }
  }

  lemma {:induction false} UnrecognisedAreOld(b: Build, lines: seq<string>, ffi: bool, line: string)
    requires line in Unrecognised(b, lines, ffi)
    ensures line in lines
    decreases |lines|
  {
    hide Strip, Mentioned, IsHeading, Closes;
    if line != lines[0] {
      UnrecognisedAreOld(b, lines[1..], b.NextFfi(lines[0], ffi), line);
    }
  }

  /** Listed libraries, in terms of the libraries done. */
  lemma ListedAfterSome(b: Build, text: string, f: string)
    requires LibraryFiles(b) && f in b.sos && b.EndDone(ReadLines(text), false, {}) != {}
    ensures var ls := ReadLines(text);
      b.Entry(f) in ReadLines(b.Update(text)) <==> f in b.EndDone(ls, false, {}) || b.Entry(f) in Unrecognised(b, ls, false)
  {
    hide Build.Items, Build.EndDone, Build.Entry, Build.Render, ReadLines, Concat, Unrecognised, KeptLines, Marked;
    hide LibraryFiles;
    var ls := ReadLines(text);
    var items := b.Items(ls, false, {});
    ReadGivesLines(text);
    PassGivesLines(b, ls, false, {});
    ReadBack(b.Render(items));
    assert b.NewLines(ls) == b.Render(items);
    PassKeepsAndMarks(b, ls, false, {});
    RenderedLines(b, items, b.Entry(f));
    DoneAreBuilt(b, ls, false, {});
    if g :| g in Marked(items) && b.Entry(g) == b.Entry(f) {
      EntriesDiffer(b, f, g);
    }
  }

  /** Which libraries leave listed with their current hash, read off the manifest: all of
      them if none was recognised; else those recognised, as an entry in an open section or
      because a line ended one, and those whose current entry stood among the lines that the
      script leaves alone: for a library whose entry is read back as its own, anywhere. */
  lemma ListedIff(b: Build, text: string, f: string)
    requires LibraryFiles(b) && f in b.sos
    ensures var ls := ReadLines(text);
      b.Entry(f) in ReadLines(b.Update(text))
      <==> (forall g :: g in b.sos ==> !Recognised(b, ls, g)) || Recognised(b, ls, f)
           || b.Entry(f) in if Clear(b, f) then ls else Unrecognised(b, ls, false)
  {
    hide Build.Items, Build.EndDone, Build.Entry, Build.Update, Build.Render, ReadLines, LibraryFiles, Recognised, AllFresh;
    hide Clear, Unrecognised;
    var ls := ReadLines(text);
    DoneIsRecognised(b, ls);
    if b.EndDone(ls, false, {}) != {} {
      ListedAfterSome(b, text, f);
      if Clear(b, f) && b.Entry(f) in ls {
        OldEntryStays(b, ls, false, {}, f);
      }
      if b.Entry(f) in Unrecognised(b, ls, false) {
        UnrecognisedAreOld(b, ls, false, b.Entry(f));
      }
    } else {
      AppendedLines(b, text);
      FreshLines(b, b.sos);
    }
  }

  /** What the script is for: with no ffi heading, or with an ffi section that some line
      ends, every built library leaves with an entry that carries its current hash. */
  lemma EveryLibraryListed(b: Build, text: string, f: string)
    requires LibraryFiles(b) && f in b.sos
    requires var ls := ReadLines(text);
      || (exists k :: 0 <= k < |ls| && OpenAt(b, ls, k) && EndsSection(b, ls[k]))
      || forall k :: 0 <= k < |ls| ==> !Heading(ls[k])
    ensures b.Entry(f) in ReadLines(b.Update(text))
  {
    hide Build.Entry, Build.Update, ReadLines, LibraryFiles, Heading, Mentioned, Strip;
    var ls := ReadLines(text);
    ListedIff(b, text, f);
    if k :| 0 <= k < |ls| && OpenAt(b, ls, k) && EndsSection(b, ls[k]) {
      assert RecognisedAt(b, ls, f, k);
    }
  }
}
