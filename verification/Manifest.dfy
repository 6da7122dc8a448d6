/** Rewriting a package manifest: one pass over its lines refreshes the hash of every
    built .so under the ffi heading and adds the missing ones. */
module Manifest {
  import opened Strings

  /** What str.strip removes. */
  predicate IsSpace(c: char) {
    || '\U{09}' <= c <= '\U{0D}'
    || '\U{1C}' <= c <= '\U{20}'
    || c == '\U{85}' || c == '\U{A0}' || c == '\U{1680}'
    || '\U{2000}' <= c <= '\U{200A}'
    || c == '\U{2028}' || c == '\U{2029}' || c == '\U{202F}' || c == '\U{205F}' || c == '\U{3000}'
  }

  function StripLeft(s: string): string {
    if s != "" && IsSpace(s[0]) then StripLeft(s[1..]) else s
  }

  function StripRight(s: string): string {
    if s != "" && IsSpace(s[|s| - 1]) then StripRight(s[..|s| - 1]) else s
  }

  function Strip(s: string): string {
    StripLeft(StripRight(s))
  }

  predicate Contains(s: string, sub: string) {
    Find(s, sub, 0).Some?
  }

  lemma ContainsIff(s: string, sub: string)
    ensures Contains(s, sub) <==> exists i: nat :: OccursAt(s, sub, i)
  {
    if Contains(s, sub) {
      assert OccursAt(s, sub, Find(s, sub, 0).value);
    }
  }

  function Concat(lines: seq<string>): string {
    if lines == [] then "" else lines[0] + Concat(lines[1..])
  }

  /** file.readlines: every line keeps its newline; the last may have none. */
  function ReadLines(text: string): (lines: seq<string>)
    ensures Concat(lines) == text
    decreases |text|
  {
    if text == "" then []
    else match Find(text, "\n", 0)
      case None => [text]
      case Some(i) => [text[..i + 1]] + ReadLines(text[i + 1..])
  }

  /** A line of the new manifest: one of the old lines, or the current entry of a library. */
  datatype Item = Kept(line: string) | Fresh(name: string)

  function AllFresh(names: seq<string>): seq<Item> {
    if names == [] then [] else [Fresh(names[0])] + AllFresh(names[1..])
  }

  /** A heading opens the ffi section. */
  predicate IsHeading(stripped: string) {
    "ffi:" <= stripped
  }

  /** A blank line or a key line ends the ffi section. */
  predicate Closes(stripped: string) {
    stripped == "" || (Contains(stripped, ":") && !("-" <= stripped) && !("build/" <= stripped))
  }

  predicate Mentions(stripped: string, name: string) {
    Contains(stripped, name) || Contains(stripped, "build/" + name)
  }

  /** The library that a line is the entry of: the first it mentions. */
  function Mentioned(stripped: string, sos: seq<string>): Option<string> {
    if sos == [] then None
    else if Mentions(stripped, sos[0]) then Some(sos[0])
    else Mentioned(stripped, sos[1..])
  }

  /** The names that are not done yet, each once. */
  function Absent(names: seq<string>, done: set<string>): seq<string> {
    if names == [] then []
    else if names[0] in done then Absent(names[1..], done)
    else [names[0]] + Absent(names[1..], done + {names[0]})
  }

  /** The built libraries by bare file name, in directory order, and the hash of each. */
  datatype Build = Build(sos: seq<string>, hash: string -> string)
  {
    function All(): set<string> {
      set f | f in sos
    }

    function Entry(name: string): string {
      "  build/" + name + ": sha256:" + hash(name) + "\n"
    }

    function Render(items: seq<Item>): seq<string> {
      if items == [] then []
      else [if items[0].Kept? then items[0].line else Entry(items[0].name)] + Render(items[1..])
    }

    /** What one line becomes, given whether the section is open and which libraries are done. */
    function LineItems(line: string, ffi: bool, done: set<string>): seq<Item> {
      var s := Strip(line);
      if IsHeading(s) || !ffi then [Kept(line)]
      else match Mentioned(s, sos)
        case Some(f) => [Fresh(f)]
        case None => if Closes(s) then AllFresh(Absent(sos, done)) + [Kept(line)] else [Kept(line)]
    }

    function NextFfi(line: string, ffi: bool): bool {
      var s := Strip(line);
      IsHeading(s) || (ffi && (Mentioned(s, sos).Some? || !Closes(s)))
    }

    function NextDone(line: string, ffi: bool, done: set<string>): set<string> {
      var s := Strip(line);
      if IsHeading(s) || !ffi then done
      else match Mentioned(s, sos)
        case Some(f) => done + {f}
        case None => if Closes(s) then done + All() else done
    }

    function Items(lines: seq<string>, ffi: bool, done: set<string>): seq<Item> {
      if lines == [] then []
      else
        LineItems(lines[0], ffi, done)
        + Items(lines[1..], NextFfi(lines[0], ffi), NextDone(lines[0], ffi, done))
    }

    function EndFfi(lines: seq<string>, ffi: bool): bool {
      if lines == [] then ffi else EndFfi(lines[1..], NextFfi(lines[0], ffi))
    }

    function EndDone(lines: seq<string>, ffi: bool, done: set<string>): set<string> {
      if lines == [] then done
      else EndDone(lines[1..], NextFfi(lines[0], ffi), NextDone(lines[0], ffi, done))
    }

    /** The new manifest, line by line, with a section of its own when nothing was done. */
    function NewLines(lines: seq<string>): seq<string> {
      Render(Items(lines, false, {}))
      + if EndDone(lines, false, {}) == {} then ["\nffi:\n"] + Render(AllFresh(sos)) else []
    }

    function Update(text: string): string {
      if sos == [] then text else Concat(NewLines(ReadLines(text)))
    }

    lemma {:induction false} RenderConcat(a: seq<Item>, c: seq<Item>)
      ensures Render(a + c) == Render(a) + Render(c)
    {
      if a == [] {
        assert a + c == c;
      } else {
        assert (a + c)[1..] == a[1..] + c;
        RenderConcat(a[1..], c);
      }
    }

    /** newLines, inFfi and processed are what the first n lines of the manifest lead to. */
    ghost predicate After(lines: seq<string>, n: nat, newLines: seq<string>, inFfi: bool, processed: set<string>) {
      && n <= |lines|
      && newLines + Render(Items(lines[n..], inFfi, processed)) == Render(Items(lines, false, {}))
      && EndDone(lines[n..], inFfi, processed) == EndDone(lines, false, {})
    }

    lemma AfterLine(lines: seq<string>, n: nat, newLines: seq<string>, inFfi: bool, processed: set<string>)
      requires n < |lines| && After(lines, n, newLines, inFfi, processed)
      ensures After(lines, n + 1, newLines + Render(LineItems(lines[n], inFfi, processed)),
                    NextFfi(lines[n], inFfi), NextDone(lines[n], inFfi, processed))
    {
      hide Build.LineItems, Build.NextFfi, Build.NextDone;
      assert lines[n..][1..] == lines[n + 1..];
      var now := LineItems(lines[n], inFfi, processed);
      var rest := Items(lines[n + 1..], NextFfi(lines[n], inFfi), NextDone(lines[n], inFfi, processed));
      RenderConcat(now, rest);
      assert newLines + (Render(now) + Render(rest)) == (newLines + Render(now)) + Render(rest);
    }

    lemma LineItemsRendered(line: string, inFfi: bool, processed: set<string>)
      ensures var s, out := Strip(line), Render(LineItems(line, inFfi, processed));
        if IsHeading(s) || !inFfi then out == [line]
        else if Mentioned(s, sos).Some? then out == [Entry(Mentioned(s, sos).value)]
        else if Closes(s) then out == Render(AllFresh(Absent(sos, processed))) + [line]
        else out == [line]
    {
      hide Strip, IsHeading, Mentioned, Closes, Absent;
      RenderConcat(AllFresh(Absent(sos, processed)), [Kept(line)]);
    }

    lemma AbsentFrom(k: nat, done: set<string>)
      requires k < |sos|
      ensures Render(AllFresh(Absent(sos[k..], done)))
           == if sos[k] in done then Render(AllFresh(Absent(sos[k + 1..], done)))
              else [Entry(sos[k])] + Render(AllFresh(Absent(sos[k + 1..], done + {sos[k]})))
    {
      hide Build.Entry;
      assert sos[k..][1..] == sos[k + 1..];
    }

    lemma {:induction false} AllFreshSnoc(names: seq<string>, name: string)
      ensures Render(AllFresh(names + [name])) == Render(AllFresh(names)) + [Entry(name)]
    {
      if names == [] {
        assert names + [name] == [name];
      } else {
        assert (names + [name])[1..] == names[1..] + [name];
        AllFreshSnoc(names[1..], name);
      }
    }
  }

  /** The libraries done after those of names that were absent are added. */
  lemma {:induction false} AbsentAdds(names: seq<string>, done: set<string>)
    ensures done + (set f | f in Absent(names, done)) == done + (set f | f in names)
  {
    if names != [] {
      var rest := names[1..];
      assert forall f :: f in names <==> f == names[0] || f in rest;
      if names[0] in done {
        AbsentAdds(rest, done);
      } else {
        var more := done + {names[0]};
        AbsentAdds(rest, more);
        var out := Absent(rest, more);
        assert forall f :: f in [names[0]] + out <==> f == names[0] || f in out;
        assert done + (set f | f in [names[0]] + out) == more + (set f | f in out);
        assert done + (set f | f in names) == more + (set f | f in rest);
      }
    }
  }

  /** The whole pass, as the script runs it: the manifest's new text is Update of its old one. */
  method UpdateManifest(b: Build, text: string) returns (r: string)
    ensures r == b.Update(text)
  {
    if b.sos == [] {
      return text;
    }
    var lines := ReadLines(text);
    var newLines := [];
    var inFfi := false;
    var processed: set<string> := {};
    for n := 0 to |lines|
      invariant b.After(lines, n, newLines, inFfi, processed)
    {
      hide Build.After, Build.LineItems, Build.Render, Build.Entry, Strip, IsHeading, Closes, Mentioned, Absent, AllFresh;
      var line := lines[n];
      b.AfterLine(lines, n, newLines, inFfi, processed);
      b.LineItemsRendered(line, inFfi, processed);
      var stripped := Strip(line);
      if IsHeading(stripped) {
        inFfi := true;
        newLines := newLines + [line];
      } else if inFfi {
        var found := FindEntry(b.sos, stripped);
        if found.Some? {
          newLines := newLines + [b.Entry(found.value)];
          processed := processed + {found.value};
        } else if Closes(stripped) {
          inFfi := false;
          var added;
          added, processed := AddMissing(b, processed);
          newLines := newLines + (added + [line]);
        } else {
          newLines := newLines + [line];
        }
      } else {
        newLines := newLines + [line];
      }
    }
    assert lines[|lines|..] == [];
    if processed == {} {
      newLines := newLines + ["\nffi:\n"];
      var own := AddAll(b);
      newLines := newLines + own;
    }
    assert newLines == b.NewLines(lines);
    r := Concat(newLines);
  }

  /** The inner search loop. */
  method FindEntry(sos: seq<string>, stripped: string) returns (found: Option<string>)
    ensures found == Mentioned(stripped, sos)
  {
    for k := 0 to |sos|
      invariant Mentioned(stripped, sos[k..]) == Mentioned(stripped, sos)
    {
      assert sos[k..][1..] == sos[k + 1..];
      if Contains(stripped, sos[k]) || Contains(stripped, "build/" + sos[k]) {
        return Some(sos[k]);
      }
    }
    found := None;
  }

  /** added and next are what the first k libraries lead to. */
  ghost predicate Completed(b: Build, k: nat, processed: set<string>, added: seq<string>, next: set<string>) {
    && k <= |b.sos|
    && added + b.Render(AllFresh(Absent(b.sos[k..], next))) == b.Render(AllFresh(Absent(b.sos, processed)))
    && next == processed + set f | f in b.sos[..k]
  }

  lemma CompletedStep(b: Build, k: nat, processed: set<string>, added: seq<string>, next: set<string>)
    requires k < |b.sos| && Completed(b, k, processed, added, next)
    ensures b.sos[k] in next ==> Completed(b, k + 1, processed, added, next)
    ensures b.sos[k] !in next ==> Completed(b, k + 1, processed, added + [b.Entry(b.sos[k])], next + {b.sos[k]})
  {
    hide Build.Entry, Build.Render, AllFresh, Absent;
    var so := b.sos[k];
    b.AbsentFrom(k, next);
    assert b.sos[..k + 1] == b.sos[..k] + [so];
  }

  lemma CompletedAll(b: Build, processed: set<string>, added: seq<string>, next: set<string>)
    requires Completed(b, |b.sos|, processed, added, next)
    ensures added == b.Render(AllFresh(Absent(b.sos, processed))) && next == processed + b.All()
  {
    assert b.sos[..|b.sos|] == b.sos && b.sos[|b.sos|..] == [];
  }

  lemma CompletedNone(b: Build, processed: set<string>)
    ensures Completed(b, 0, processed, [], processed)
  {
    assert b.sos[0..] == b.sos;
  }

  /** The loop that completes a section that ends. */
  method AddMissing(b: Build, processed: set<string>) returns (added: seq<string>, next: set<string>)
    ensures added == b.Render(AllFresh(Absent(b.sos, processed)))
    ensures next == processed + b.All()
  {
    hide Completed, Build.Entry;
    added, next := [], processed;
    CompletedNone(b, processed);
    for k := 0 to |b.sos|
      invariant Completed(b, k, processed, added, next)
    {
      CompletedStep(b, k, processed, added, next);
      var so := b.sos[k];
      if so !in next {
        added := added + [b.Entry(so)];
        next := next + {so};
      }
    }
    CompletedAll(b, processed, added, next);
  }

  /** The loop that fills a section of its own. */
  method AddAll(b: Build) returns (added: seq<string>)
    ensures added == b.Render(AllFresh(b.sos))
  {
    added := [];
    for k := 0 to |b.sos|
      invariant added == b.Render(AllFresh(b.sos[..k]))
    {
      b.AllFreshSnoc(b.sos[..k], b.sos[k]);
      assert b.sos[..k + 1] == b.sos[..k] + [b.sos[k]];
      added := added + [b.Entry(b.sos[k])];
    }
    assert b.sos[..|b.sos|] == b.sos;
  }
}
