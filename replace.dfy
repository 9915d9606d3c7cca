/**
 * The find-and-replace loop of create.js:155-162: every configured file is
 * read, the manifest's old name is replaced by the project name, and the
 * file is written back; the first unreadable file stops the loop.
 */
module Replace {
  import opened Wrappers
  import opened Text

  /**
   * The result of the loop: the texts afterwards, the files written with
   * what was written, in order, and the file whose read failed, if any.
   */
  datatype Patched = Patched(texts: map<string, string>, written: seq<(string, string)>, unreadable: Option<string>)

  /**
   * The loop over `names`, reading each file from `texts` as it is at that
   * moment, so a file listed twice is read again after its first rewrite.
   */
  function Patch(texts: map<string, string>, names: seq<string>, target: string, replacement: string): Patched
    requires |target| > 0
    decreases |names|
  {
    if names == [] then Patched(texts, [], None)
    else if names[0] !in texts then Patched(texts, [], Some(names[0]))
    else
      var text := ReplaceAll(texts[names[0]], target, replacement);
      var rest := Patch(texts[names[0] := text], names[1..], target, replacement);
      Patched(rest.texts, [(names[0], text)] + rest.written, rest.unreadable)
  }

  /**
   * Files are handled in list order, each once: the written files are a
   * prefix of the list, and the loop either reached the end or stopped at
   * the next file, which could not be read. No file appears or vanishes.
   */
  lemma {:induction false} PatchOrder(texts: map<string, string>, names: seq<string>, target: string, replacement: string)
    requires |target| > 0
    ensures var p := Patch(texts, names, target, replacement);
      && |p.written| <= |names|
      && (forall i :: 0 <= i < |p.written| ==> p.written[i].0 == names[i])
      && (p.unreadable == None <==> |p.written| == |names|)
      && (p.unreadable.Some? ==> p.unreadable.value == names[|p.written|] && p.unreadable.value !in texts)
      && p.texts.Keys == texts.Keys
    decreases |names|
  {
    if names != [] && names[0] in texts {
      var text := ReplaceAll(texts[names[0]], target, replacement);
      PatchOrder(texts[names[0] := text], names[1..], target, replacement);
    }
  }

  /** When every listed file can be read, the loop writes them all. */
  lemma PatchAllReadable(texts: map<string, string>, names: seq<string>, target: string, replacement: string)
    requires |target| > 0
    requires forall i :: 0 <= i < |names| ==> names[i] in texts
    ensures Patch(texts, names, target, replacement).unreadable == None
  {
    PatchOrder(texts, names, target, replacement);
  }

  /** A file that is not listed keeps its text. */
  lemma {:induction false} PatchUntouched(texts: map<string, string>, names: seq<string>, target: string, replacement: string, f: string)
    requires |target| > 0
    requires f in texts && f !in names
    ensures f in Patch(texts, names, target, replacement).texts
    ensures Patch(texts, names, target, replacement).texts[f] == texts[f]
    decreases |names|
  {
    if names != [] && names[0] in texts {
      var text := ReplaceAll(texts[names[0]], target, replacement);
      PatchUntouched(texts[names[0] := text], names[1..], target, replacement, f);
    }
  }

  /**
   * With each file listed once, the text written to a file is its original
   * text with every occurrence of the old name replaced, and the file ends
   * up holding that text.
   */
  lemma {:induction false} PatchContents(texts: map<string, string>, names: seq<string>, target: string, replacement: string)
    requires |target| > 0
    requires forall i, j :: 0 <= i < j < |names| ==> names[i] != names[j]
    ensures var p := Patch(texts, names, target, replacement);
      forall i :: 0 <= i < |p.written| ==>
        && i < |names| && names[i] in texts && names[i] in p.texts
        && p.written[i].1 == ReplaceAll(texts[names[i]], target, replacement)
        && p.texts[names[i]] == p.written[i].1
    decreases |names|
  {
    if names != [] && names[0] in texts {
      var f := names[0];
      var text := ReplaceAll(texts[f], target, replacement);
      var t1 := texts[f := text];
      PatchContents(t1, names[1..], target, replacement);
      PatchOrder(t1, names[1..], target, replacement);
      assert f !in names[1..] by {
        forall j | 0 <= j < |names[1..]| ensures names[1..][j] != f {
          assert names[0] != names[j + 1];
        }
      }
      PatchUntouched(t1, names[1..], target, replacement, f);
      var p := Patch(texts, names, target, replacement);
      forall i | 1 <= i < |p.written|
        ensures names[i] in texts && texts[names[i]] == t1[names[i]]
      {
        assert names[i] == names[1..][i - 1];
        assert names[0] != names[i];
      }
    }
  }

  /** When no file contains the old name, every file is written back unchanged. */
  lemma {:induction false} PatchNoMatch(texts: map<string, string>, names: seq<string>, target: string, replacement: string)
    requires |target| > 0
    requires forall f :: f in texts ==> !Occurs(texts[f], target)
    ensures var p := Patch(texts, names, target, replacement);
      && p.texts == texts
      && forall i :: 0 <= i < |p.written| ==> p.written[i].0 in texts && p.written[i].1 == texts[p.written[i].0]
    decreases |names|
  {
    if names != [] && names[0] in texts {
      var f := names[0];
      ReplaceNoMatch(texts[f], target, replacement);
      assert texts[f := texts[f]] == texts;
      PatchNoMatch(texts, names[1..], target, replacement);
    }
  }

  /** Replacing a name with itself leaves every file as it was. */
  lemma {:induction false} PatchSelf(texts: map<string, string>, names: seq<string>, target: string)
    requires |target| > 0
    ensures Patch(texts, names, target, target).texts == texts
    decreases |names|
  {
    if names != [] && names[0] in texts {
      ReplaceSelf(texts[names[0]], target);
      assert texts[names[0] := texts[names[0]]] == texts;
      PatchSelf(texts, names[1..], target);
    }
  }

  /** The text files of the generated project, by their configured names. */
  class ProjectFiles {
    var texts: map<string, string>

    constructor (initial: map<string, string>)
      ensures texts == initial
    {
      texts := initial;
    }

    /**
     * `conf.replaceFiles.forEach(...)`: read, replace, write back, in list
     * order; a file that cannot be read stops the loop (its read throws).
     */
    method ReplaceInFiles(names: seq<string>, target: string, replacement: string)
      returns (written: seq<(string, string)>, unreadable: Option<string>)
      requires |target| > 0
      modifies this
      ensures Patched(texts, written, unreadable) == Patch(old(texts), names, target, replacement)
    {
      written, unreadable := [], None;
      var i := 0;
      while i < |names|
        invariant 0 <= i <= |names|
        invariant var p := Patch(texts, names[i..], target, replacement);
          Patched(p.texts, written + p.written, p.unreadable) == Patch(old(texts), names, target, replacement)
      {
        var name := names[i];
        assert names[i..][1..] == names[i + 1..];
        if name !in texts {
          unreadable := Some(name);
          return;
        }
        var text := ReplaceAll(texts[name], target, replacement);
        texts := texts[name := text];
        written := written + [(name, text)];
        i := i + 1;
      }
    }
  }
}
