/** The rewritten manifest, line by line, on the text of its lines: what stays, what is replaced,
    and where the missing entries go. */
module ManifestShape {
  import opened Strings
  import opened Manifest
  import opened ManifestLaws

  ghost predicate Occurs(s: string, sub: string) {
    exists i: nat :: OccursAt(s, sub, i)
  }

  /** The line names a built library. */
  ghost predicate Names(b: Build, line: string) {
    exists k :: 0 <= k < |b.sos| && Occurs(Strip(line), b.sos[k])
  }

  ghost predicate Starts(line: string, prefix: string) {
    prefix <= Strip(line)
  }

  /** Lines after which an open section is still open: headings, lines that name a library, and
      other lines that are list items, paths into build/, or no keys at all. */
  ghost predicate Inside(b: Build, line: string) {
    || Starts(line, "ffi:") || Names(b, line)
    || (Strip(line) != "" && (':' !in Strip(line) || Strip(line)[0] == '-' || Starts(line, "build/")))
  }

  /** The line that ends a section: blank, or the next key of the manifest. */
  ghost predicate Ending(b: Build, line: string) {
    && !Starts(line, "ffi:") && !Names(b, line)
    && (Strip(line) == "" || (':' in Strip(line) && Strip(line)[0] != '-' && !Starts(line, "build/")))
  }

  // ---------------------------------------------------------------------------
  // What the script's tests mean
  // ---------------------------------------------------------------------------

  /** White space: the line ends and tabs, the four separators of ASCII, and the Unicode spaces. */
  lemma WhiteSpaceIs(c: char)
    ensures IsSpace(c) <==>
            c in "\t\n\U{0B}\U{0C}\r\U{1C}\U{1D}\U{1E}\U{1F} " || c in "\U{85}\U{A0}\U{1680}"
            || c in "\U{2000}\U{2001}\U{2002}\U{2003}\U{2004}\U{2005}\U{2006}\U{2007}\U{2008}\U{2009}\U{200A}"
            || c in "\U{2028}\U{2029}\U{202F}\U{205F}\U{3000}"
  {
  }

  /** Strip takes white space off both ends, and all of it. */
  lemma StripIs(s: string) returns (a: string, c: string)
    ensures s == a + Strip(s) + c
    ensures (forall x :: x in a ==> IsSpace(x)) && forall x :: x in c ==> IsSpace(x)
    ensures Strip(s) != "" ==> !IsSpace(Strip(s)[0]) && !IsSpace(Strip(s)[|Strip(s)| - 1])
  {
    var t;
    t, c := StripRightIs(s);
    a := StripLeftIs(StripRight(s));
  }

  lemma {:induction false} StripLeftIs(s: string) returns (a: string)
    ensures s == a + StripLeft(s) && (forall x :: x in a ==> IsSpace(x))
    ensures StripLeft(s) != "" ==> !IsSpace(StripLeft(s)[0]) && StripLeft(s)[|StripLeft(s)| - 1] == s[|s| - 1]
  {
    if s != "" && IsSpace(s[0]) {
      var rest := StripLeftIs(s[1..]);
      a := [s[0]] + rest;
    } else {
      a := "";
    }
  }

  lemma {:induction false} StripRightIs(s: string) returns (t: string, c: string)
    ensures s == StripRight(s) + c && t == StripRight(s) && (forall x :: x in c ==> IsSpace(x))
    ensures t != "" ==> !IsSpace(t[|t| - 1])
  {
    if s != "" && IsSpace(s[|s| - 1]) {
      t, c := StripRightIs(s[..|s| - 1]);
      c := c + [s[|s| - 1]];
    } else {
      t, c := s, "";
    }
  }

  /** An entry is indented, and on its own line holds path, colon and hash. */
  lemma EntryText(b: Build, f: string)
    requires IsDigest(b.hash(f))
    ensures b.Entry(f) == "  " + Strip(b.Entry(f)) + "\n" && Strip(b.Entry(f)) == "build/" + f + ": sha256:" + b.hash(f)
  {
    hide Strip;
    StripEntry(b, f);
  }

  lemma ContainsMeans(s: string, sub: string)
    ensures Contains(s, sub) <==> Occurs(s, sub)
  {
    ContainsIff(s, sub);
  }

  lemma ColonMeans(s: string)
    ensures Contains(s, ":") <==> ':' in s
  {
    hide Contains;
    ContainsMeans(s, ":");
    if ':' in s {
      var i :| 0 <= i < |s| && s[i] == ':';
      assert s[i..i + 1] == ":";
      assert OccursAt(s, ":", i);
    }
    if Occurs(s, ":") {
      var i: nat :| OccursAt(s, ":", i);
      assert s[i..i + 1][0] == s[i];
    }
  }

  lemma MentionsMeans(s: string, f: string)
    ensures Mentions(s, f) <==> Occurs(s, f)
  {
    ContainsMeans(s, f);
    if Contains(s, "build/" + f) {
      ContainsTail(s, f);
    }
  }

  /** The library that a line is taken for: the first, in directory order, that it names. */
  lemma {:induction false} MentionedIsFirst(s: string, sos: seq<string>)
    ensures Mentioned(s, sos).None? <==> forall k :: 0 <= k < |sos| ==> !Occurs(s, sos[k])
    ensures Mentioned(s, sos).Some? ==>
              exists k :: 0 <= k < |sos| && sos[k] == Mentioned(s, sos).value && Occurs(s, sos[k])
                          && forall i :: 0 <= i < k ==> !Occurs(s, sos[i])
  {
    hide Mentions, Occurs;
    if sos != [] {
      MentionsMeans(s, sos[0]);
      MentionedIsFirst(s, sos[1..]);
      assert forall k :: 0 < k < |sos| ==> sos[k] == sos[1..][k - 1];
      if !Mentions(s, sos[0]) && Mentioned(s, sos).Some? {
        var k :| 0 <= k < |sos[1..]| && sos[1..][k] == Mentioned(s, sos[1..]).value && Occurs(s, sos[1..][k])
                 && forall i :: 0 <= i < k ==> !Occurs(s, sos[1..][i]);
        assert sos[k + 1] == sos[1..][k];
      }
    }
  }

  /** The script ends a section at these lines and at no others. */
  lemma EndingIff(b: Build, line: string)
    ensures EndsSection(b, line) <==> Ending(b, line)
    ensures !EndsSection(b, line) <==> Inside(b, line)
  {
    hide Strip, Mentioned, Occurs, Contains;
    MentionedIsFirst(Strip(line), b.sos);
    ColonMeans(Strip(line));
    var s := Strip(line);
    assert s != "" ==> (s[0] == '-' <==> "-" <= s);
  }

  // ---------------------------------------------------------------------------
  // What one pass makes of them
  // ---------------------------------------------------------------------------

  /** What a line inside an open section becomes. */
  function Current(b: Build, line: string): string {
    if "ffi:" <= Strip(line) then line
    else match Mentioned(Strip(line), b.sos)
      case Some(f) => b.Entry(f)
      case None => line
  }

  function AllCurrent(b: Build, lines: seq<string>): (r: seq<string>)
    ensures |r| == |lines| && forall k :: 0 <= k < |lines| ==> r[k] == Current(b, lines[k])
  {
    seq(|lines|, k requires 0 <= k < |lines| => Current(b, lines[k]))
  }

  /** The libraries that lines inside a section are taken for. */
  ghost function Taken(b: Build, lines: seq<string>): set<string> {
    set k | 0 <= k < |lines| && !("ffi:" <= Strip(lines[k])) && Mentioned(Strip(lines[k]), b.sos).Some?
        :: Mentioned(Strip(lines[k]), b.sos).value
  }

  /** Outside a section nothing happens. */
  lemma {:induction false} OutsideStays(b: Build, lines: seq<string>, done: set<string>)
    requires forall k :: 0 <= k < |lines| ==> !Starts(lines[k], "ffi:")
    ensures b.Render(b.Items(lines, false, done)) == lines
    ensures !b.EndFfi(lines, false) && b.EndDone(lines, false, done) == done
    decreases |lines|
  {
    hide Strip;
    if lines != [] {
      OutsideStays(b, lines[1..], done);
      RenderKept(b, lines[0]);
      b.RenderConcat([Kept(lines[0])], b.Items(lines[1..], false, done));
      assert lines == [lines[0]] + lines[1..];
    }
  }

  lemma InsideLine(b: Build, line: string, done: set<string>)
    requires Inside(b, line)
    ensures b.Render(b.LineItems(line, true, done)) == [Current(b, line)] && b.NextFfi(line, true)
    ensures b.NextDone(line, true, done) == done + Taken(b, [line])
  {
    hide Strip, Mentioned, Closes;
    EndingIff(b, line);
    b.LineItemsRendered(line, true, done);
    assert [line][0] == line;
  }

  lemma TakenStep(b: Build, lines: seq<string>)
    requires lines != []
    ensures Taken(b, lines) == Taken(b, [lines[0]]) + Taken(b, lines[1..])
  {
    hide Strip, Mentioned;
    var l, rest := [lines[0]], lines[1..];
    forall f
      ensures f in Taken(b, lines) <==> f in Taken(b, l) || f in Taken(b, rest)
    {
      if k :| 0 <= k < |lines| && !("ffi:" <= Strip(lines[k])) && Mentioned(Strip(lines[k]), b.sos) == Some(f) {
        if k > 0 {
          assert rest[k - 1] == lines[k];
        } else {
          assert l[0] == lines[k];
        }
      }
      if k :| 0 <= k < |rest| && !("ffi:" <= Strip(rest[k])) && Mentioned(Strip(rest[k]), b.sos) == Some(f) {
        assert lines[k + 1] == rest[k];
      }
    }
  }

  /** Inside a section lines that name a library are replaced by its entry, one for one. */
  lemma {:induction false} InsideIsRewritten(b: Build, lines: seq<string>, done: set<string>)
    requires forall k :: 0 <= k < |lines| ==> Inside(b, lines[k])
    ensures b.Render(b.Items(lines, true, done)) == AllCurrent(b, lines)
    ensures b.EndFfi(lines, true) && b.EndDone(lines, true, done) == done + Taken(b, lines)
    decreases |lines|
  {
    hide Strip, Mentioned, Inside, Current, Build.LineItems, Build.NextFfi, Build.NextDone;
    if lines != [] {
      var line, rest := lines[0], lines[1..];
      var done' := b.NextDone(line, true, done);
      InsideLine(b, line, done);
      TakenStep(b, lines);
      InsideIsRewritten(b, rest, done');
      b.RenderConcat(b.LineItems(line, true, done), b.Items(rest, true, done'));
      assert AllCurrent(b, lines) == [Current(b, line)] + AllCurrent(b, rest);
    }
  }

  /** The entries of the libraries not taken stand in front of the line that ends the section. */
  lemma EndingLine(b: Build, line: string, done: set<string>)
    requires Ending(b, line)
    ensures b.Render(b.LineItems(line, true, done)) == b.Render(AllFresh(Absent(b.sos, done))) + [line]
    ensures !b.NextFfi(line, true) && b.NextDone(line, true, done) == done + b.All()
  {
    hide Strip, Mentioned, Closes, Build.Entry, Absent, AllFresh;
    EndingIff(b, line);
    b.LineItemsRendered(line, true, done);
  }

  lemma {:induction false} FreshAt(b: Build, names: seq<string>)
    ensures |b.Render(AllFresh(names))| == |names|
    ensures forall k :: 0 <= k < |names| ==> b.Render(AllFresh(names))[k] == b.Entry(names[k])
  {
    hide Build.Entry;
    if names != [] {
      FreshAt(b, names[1..]);
    }
  }

  /** The names that are not done, each once, in their order. */
  lemma {:induction false} AbsentInOrder(names: seq<string>, done: set<string>)
    ensures forall f :: f in Absent(names, done) <==> f in names && f !in done
    ensures forall i, k :: 0 <= i < k < |Absent(names, done)| ==>
              Absent(names, done)[i] != Absent(names, done)[k] && Before(names, Absent(names, done)[i], Absent(names, done)[k])
  {
    hide Before;
    if names != [] {
      var f, rest := names[0], names[1..];
      var done' := if f in done then done else done + {f};
      AbsentInOrder(rest, done');
      assert names == [f] + rest;
      forall g, h | Before(rest, g, h)
        ensures Before(names, g, h)
      {
        LaterBefore(names, g, h);
      }
      forall h | h in rest
        ensures Before(names, f, h)
      {
        FirstBefore(names, h);
      }
    }
  }

  /** f is listed before g. */
  ghost predicate Before(names: seq<string>, f: string, g: string) {
    exists i, k :: 0 <= i < k < |names| && names[i] == f && names[k] == g
  }

  lemma LaterBefore(names: seq<string>, f: string, g: string)
    requires names != [] && Before(names[1..], f, g)
    ensures Before(names, f, g)
  {
    var i, k :| 0 <= i < k < |names[1..]| && names[1..][i] == f && names[1..][k] == g;
    assert names[i + 1] == f && names[k + 1] == g;
  }

  lemma FirstBefore(names: seq<string>, g: string)
    requires names != [] && g in names[1..]
    ensures Before(names, names[0], g)
  {
    var k :| 0 <= k < |names[1..]| && names[1..][k] == g;
    assert names[k + 1] == g;
  }

  // ---------------------------------------------------------------------------
  // The new text
  // ---------------------------------------------------------------------------

  /** A manifest with one ffi section: the lines before it, its heading, its lines, the line that
      ends it (or none), and the lines after. */
  ghost predicate Sectioned(b: Build, before: seq<string>, heading: string, inside: seq<string>, tail: seq<string>) {
    && (forall k :: 0 <= k < |before| ==> !Starts(before[k], "ffi:"))
    && Starts(heading, "ffi:") && (forall k :: 0 <= k < |inside| ==> Inside(b, inside[k]))
    && (tail != [] ==> Ending(b, tail[0]))
    && forall k :: 0 <= k < |tail| ==> !Starts(tail[k], "ffi:")
  }

  /** What a pass makes of it. */
  ghost function Passed(b: Build, before: seq<string>, heading: string, inside: seq<string>, tail: seq<string>): seq<string> {
    before + [heading] + AllCurrent(b, inside)
    + if tail == [] then [] else b.Render(AllFresh(Absent(b.sos, Taken(b, inside)))) + tail
  }

  lemma HeadingStays(b: Build, heading: string, ffi: bool, done: set<string>)
    requires Starts(heading, "ffi:")
    ensures b.Render(b.Items([heading], ffi, done)) == [heading]
    ensures b.EndFfi([heading], ffi) && b.EndDone([heading], ffi, done) == done
  {
    hide Strip, Mentioned, Closes;
    OneLine(b, heading, ffi, done);
    b.LineItemsRendered(heading, ffi, done);
  }

  lemma TailPass(b: Build, tail: seq<string>, done: set<string>)
    requires tail != [] && Ending(b, tail[0]) && forall k :: 0 <= k < |tail| ==> !Starts(tail[k], "ffi:")
    ensures b.Render(b.Items(tail, true, done)) == b.Render(AllFresh(Absent(b.sos, done))) + tail
    ensures b.EndDone(tail, true, done) == done + b.All()
  {
    hide Ending, Starts, Build.LineItems, Build.NextFfi, Build.NextDone, Build.Render, Absent, AllFresh;
    var rest, done' := tail[1..], b.NextDone(tail[0], true, done);
    EndingLine(b, tail[0], done);
    OutsideStays(b, rest, done');
    b.RenderConcat(b.LineItems(tail[0], true, done), b.Items(rest, false, done'));
    assert tail == [tail[0]] + rest;
  }

  lemma PassIs(b: Build, before: seq<string>, heading: string, inside: seq<string>, tail: seq<string>)
    requires Sectioned(b, before, heading, inside, tail)
    ensures var lines := before + [heading] + inside + tail;
      && b.Render(b.Items(lines, false, {})) == Passed(b, before, heading, inside, tail)
      && b.EndDone(lines, false, {}) == if tail == [] then Taken(b, inside) else Taken(b, inside) + b.All()
  {
    hide *;
    OpenSectioned(b, before, heading, inside, tail);
    var front, open := before + [heading], before + [heading] + inside;
    OutsideStays(b, before, {});
    HeadingStays(b, heading, false, {});
    InsideIsRewritten(b, inside, {});
    var none: set<string> := {};
    assert none + Taken(b, inside) == Taken(b, inside);
    PassPlus(b, before, [heading], false, {});
    PassPlus(b, front, inside, false, {});
    PassPlus(b, open, tail, false, {});
    if tail == [] {
      NoLinesPass(b, true, Taken(b, inside));
    } else {
      TailPass(b, tail, Taken(b, inside));
    }
    PassedIs(b, before, heading, inside, tail);
  }

  lemma OpenSectioned(b: Build, before: seq<string>, heading: string, inside: seq<string>, tail: seq<string>)
    requires Sectioned(b, before, heading, inside, tail)
    ensures forall k :: 0 <= k < |before| ==> !Starts(before[k], "ffi:")
    ensures Starts(heading, "ffi:") && (forall k :: 0 <= k < |inside| ==> Inside(b, inside[k]))
    ensures tail != [] ==> Ending(b, tail[0])
    ensures forall k :: 0 <= k < |tail| ==> !Starts(tail[k], "ffi:")
  {
  }

  lemma PassedIs(b: Build, before: seq<string>, heading: string, inside: seq<string>, tail: seq<string>)
    ensures Passed(b, before, heading, inside, tail)
         == before + [heading] + AllCurrent(b, inside)
            + if tail == [] then [] else b.Render(AllFresh(Absent(b.sos, Taken(b, inside)))) + tail
  {
  }

  lemma NoLinesPass(b: Build, ffi: bool, done: set<string>)
    ensures b.Render(b.Items([], ffi, done)) == [] && b.EndDone([], ffi, done) == done
  {
  }

  lemma PassPlus(b: Build, a: seq<string>, c: seq<string>, ffi: bool, done: set<string>)
    ensures b.Render(b.Items(a + c, ffi, done))
         == b.Render(b.Items(a, ffi, done)) + b.Render(b.Items(c, b.EndFfi(a, ffi), b.EndDone(a, ffi, done)))
    ensures b.EndFfi(a + c, ffi) == b.EndFfi(c, b.EndFfi(a, ffi))
    ensures b.EndDone(a + c, ffi, done) == b.EndDone(c, b.EndFfi(a, ffi), b.EndDone(a, ffi, done))
  {
    hide *;
    PassConcat(b, a, c, ffi, done);
    b.RenderConcat(b.Items(a, ffi, done), b.Items(c, b.EndFfi(a, ffi), b.EndDone(a, ffi, done)));
  }

  /** Every library is taken for a line of the section or absent. */
  lemma EntryWritten(b: Build, inside: seq<string>, f: string)
    requires f in b.sos
    ensures b.Entry(f) in AllCurrent(b, inside) || b.Entry(f) in b.Render(AllFresh(Absent(b.sos, Taken(b, inside))))
  {
    hide Strip, Mentioned, Build.Entry, Build.Render, Absent, AllFresh;
    if f in Taken(b, inside) {
      var k :| 0 <= k < |inside| && !("ffi:" <= Strip(inside[k])) && Mentioned(Strip(inside[k]), b.sos) == Some(f);
      assert AllCurrent(b, inside)[k] == b.Entry(f);
    } else {
      var names := Absent(b.sos, Taken(b, inside));
      AbsentInOrder(b.sos, Taken(b, inside));
      FreshAt(b, names);
      var k :| 0 <= k < |names| && names[k] == f;
      assert b.Render(AllFresh(names))[k] == b.Entry(f);
    }
  }

  /** A section that some line ends: the lines around it stay, the lines of libraries become
      their entries where they stand, and directly in front of the line that ends the section,
      a blank one or the next key, come the entries of the other libraries in directory order. */
  lemma SectionIsCompleted(b: Build, before: seq<string>, heading: string, inside: seq<string>, line: string, after: seq<string>)
    requires LibraryFiles(b) && b.sos != [] && AreLines(before + [heading] + inside + ([line] + after))
    requires Sectioned(b, before, heading, inside, [line] + after)
    ensures ReadLines(b.Update(Concat(before + [heading] + inside + ([line] + after))))
         == before + [heading] + AllCurrent(b, inside)
            + (b.Render(AllFresh(Absent(b.sos, Taken(b, inside)))) + ([line] + after))
    ensures forall f :: f in b.sos ==>
              b.Entry(f) in ReadLines(b.Update(Concat(before + [heading] + inside + ([line] + after))))
  {
    hide *;
    forall f | f in b.sos
      ensures b.Entry(f) in AllCurrent(b, inside) || b.Entry(f) in b.Render(AllFresh(Absent(b.sos, Taken(b, inside))))
    {
      EntryWritten(b, inside, f);
    }
    var lines := before + [heading] + inside + ([line] + after);
    ReadBack(lines);
    PassIs(b, before, heading, inside, [line] + after);
    PassedIs(b, before, heading, inside, [line] + after);
    AllNotEmpty(b);
    WrittenLines(b, lines);
  }

  /** A section that is open at the end: its lines become entries where they stand; if there is
      none, the whole text stays and a section of its own with every entry follows. */
  lemma OpenSectionIsRewritten(b: Build, before: seq<string>, heading: string, inside: seq<string>)
    requires LibraryFiles(b) && b.sos != [] && AreLines(before + [heading] + inside)
    requires Sectioned(b, before, heading, inside, [])
    ensures var text := Concat(before + [heading] + inside);
      if Taken(b, inside) != {} then ReadLines(b.Update(text)) == before + [heading] + AllCurrent(b, inside)
      else b.Update(text) == text + "\n" + ("ffi:\n" + Concat(b.Render(AllFresh(b.sos))))
  {
    hide *;
    var lines := before + [heading] + inside;
    ReadBack(lines);
    assert lines + [] == lines;
    PassIs(b, before, heading, inside, []);
    PassedIs(b, before, heading, inside, []);
    if Taken(b, inside) != {} {
      WrittenLines(b, lines);
    } else {
      AppendedText(b, Concat(lines));
    }
  }

  /** Without a heading the whole text stays and a section of its own follows. */
  lemma NoSectionIsAppended(b: Build, lines: seq<string>)
    requires b.sos != [] && AreLines(lines) && forall k :: 0 <= k < |lines| ==> !Starts(lines[k], "ffi:")
    ensures b.Update(Concat(lines)) == Concat(lines) + "\n" + ("ffi:\n" + Concat(b.Render(AllFresh(b.sos))))
  {
    hide *;
    ReadBack(lines);
    OutsideStays(b, lines, {});
    AppendedText(b, Concat(lines));
  }

  lemma AllNotEmpty(b: Build)
    requires b.sos != []
    ensures forall done :: done + b.All() != {}
  {
    assert b.sos[0] in b.All();
  }

  lemma WrittenLines(b: Build, lines: seq<string>)
    requires LibraryFiles(b) && b.sos != [] && AreLines(lines) && ReadLines(Concat(lines)) == lines
    requires b.EndDone(lines, false, {}) != {}
    ensures ReadLines(b.Update(Concat(lines))) == b.Render(b.Items(lines, false, {}))
  {
    hide LibraryFiles, AreLines, ReadLines, Concat, Build.EndDone, Build.Items, Build.Render;
    var out := b.Render(b.Items(lines, false, {}));
    assert b.NewLines(lines) == out;
    PassGivesLines(b, lines, false, {});
    ReadBack(out);
  }
}
