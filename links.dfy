/** The link table of `WindowGen.write_links`: a tab-separated pair of window ids
    for each two consecutive windows of one scaffold, appended to a file that is
    created empty when missing. */
module Links {
  import opened Common

  /** The pairs `(windows[i], windows[i + 1])` for `i` in `range(0, len(windows) - 1)`. */
  function Consecutive(windows: seq<string>): seq<(string, string)>
  {
    if |windows| <= 1 then []
    else seq(|windows| - 1, i requires 0 <= i < |windows| - 1 => (windows[i], windows[i + 1]))
  }

  /** The pairs written for the first `n` entries of a dictionary scaffold -> window ids, in its iteration order. */
  function LinkPairsUpTo(windows: Dict<string, seq<string>>, n: nat): seq<(string, string)>
    requires n <= |windows|
  {
    if n == 0 then [] else LinkPairsUpTo(windows, n - 1) + Consecutive(windows[n - 1].1)
  }

  /** The pairs `write_links` writes for a dictionary scaffold -> window ids. */
  function LinkPairs(windows: Dict<string, seq<string>>): seq<(string, string)>
  {
    LinkPairsUpTo(windows, |windows|)
  }

  function LinkLine(p: (string, string)): string
  {
    p.0 + "\t" + p.1 + "\n"
  }

  /** The text of a sequence of link lines. */
  function Render(pairs: seq<(string, string)>): string
    decreases |pairs|
  {
    if |pairs| == 0 then "" else Render(pairs[..|pairs| - 1]) + LinkLine(pairs[|pairs| - 1])
  }

  /** The number of links the first `n` scaffolds contribute: one fewer than its windows each, none for none. */
  function LinkCount(windows: Dict<string, seq<string>>, n: nat): nat
    requires n <= |windows|
  {
    if n == 0 then 0
    else
      var k := |windows[n - 1].1|;
      LinkCount(windows, n - 1) + (if k == 0 then 0 else k - 1)
  }

  /** A scaffold with k windows contributes max(0, k - 1) lines. */
  lemma {:induction false} LinkPairsCount(windows: Dict<string, seq<string>>, n: nat)
    requires n <= |windows|
    ensures |LinkPairsUpTo(windows, n)| == LinkCount(windows, n)
  {
    if n > 0 {
      LinkPairsCount(windows, n - 1);
    }
  }

  /** `p` pairs window `i` of scaffold entry `g` with the window that follows it. */
  predicate LinksAt(windows: Dict<string, seq<string>>, g: int, i: int, p: (string, string))
  {
    0 <= g < |windows| && 0 <= i && i + 1 < |windows[g].1| && p == (windows[g].1[i], windows[g].1[i + 1])
  }

  /** Every link joins two consecutive windows of one scaffold, and every two consecutive windows are linked. */
  lemma LinkPairsExact(windows: Dict<string, seq<string>>, n: nat, p: (string, string))
    requires n <= |windows|
    ensures p in LinkPairsUpTo(windows, n) <==> exists g, i :: g < n && LinksAt(windows, g, i, p)
  {
    if p in LinkPairsUpTo(windows, n) {
      LinkPairsSound(windows, n, p);
    }
    if exists g, i :: g < n && LinksAt(windows, g, i, p) {
      var g, i :| g < n && LinksAt(windows, g, i, p);
      LinkPairsComplete(windows, n, g, i, p);
    }
  }

  lemma {:induction false} LinkPairsSound(windows: Dict<string, seq<string>>, n: nat, p: (string, string))
    requires n <= |windows| && p in LinkPairsUpTo(windows, n)
    ensures exists g, i :: g < n && LinksAt(windows, g, i, p)
  {
    var prev := LinkPairsUpTo(windows, n - 1);
    var last := Consecutive(windows[n - 1].1);
    assert LinkPairsUpTo(windows, n) == prev + last;
    if p in prev {
      LinkPairsSound(windows, n - 1, p);
      var g, i :| g < n - 1 && LinksAt(windows, g, i, p);
    } else {
      var i :| 0 <= i < |last| && last[i] == p;
      assert LinksAt(windows, n - 1, i, p);
    }
  }

  lemma {:induction false} LinkPairsComplete(windows: Dict<string, seq<string>>, n: nat, g: nat, i: nat, p: (string, string))
    requires n <= |windows| && g < n && LinksAt(windows, g, i, p)
    ensures p in LinkPairsUpTo(windows, n)
  {
    var prev := LinkPairsUpTo(windows, n - 1);
    var last := Consecutive(windows[n - 1].1);
    assert LinkPairsUpTo(windows, n) == prev + last;
    if g == n - 1 {
      assert last[i] == p;
    } else {
      LinkPairsComplete(windows, n - 1, g, i, p);
    }
  }

  lemma {:induction false} RenderAppend(pairs: seq<(string, string)>, more: seq<(string, string)>)
    ensures Render(pairs + more) == Render(pairs) + Render(more)
    decreases |more|
  {
    if |more| > 0 {
      var m := more[..|more| - 1];
      assert (pairs + more)[..|pairs + more| - 1] == pairs + m;
      RenderAppend(pairs, m);
    } else {
      assert pairs + more == pairs;
    }
  }

  /** The text for one more scaffold is the text of that scaffold's links appended. */
  lemma RenderNextScaffold(windows: Dict<string, seq<string>>, g: nat)
    requires g < |windows|
    ensures Render(LinkPairsUpTo(windows, g + 1)) == Render(LinkPairsUpTo(windows, g)) + Render(Consecutive(windows[g].1))
  {
    RenderAppend(LinkPairsUpTo(windows, g), Consecutive(windows[g].1));
  }

  /** The text of the first `i + 1` links of one scaffold extends that of its first `i`. */
  lemma RenderConsecutiveStep(ids: seq<string>, i: nat)
    requires i + 1 < |ids|
    ensures Render(Consecutive(ids)[..i + 1]) == Render(Consecutive(ids)[..i]) + LinkLine((ids[i], ids[i + 1]))
  {
    var links := Consecutive(ids);
    assert links[..i + 1][..i] == links[..i];
    assert links[..i + 1][i] == (ids[i], ids[i + 1]);
  }

  /** Stated on its own so that the methods appending to the file see only this step of list reasoning. */
  lemma AppendAssociates(a: string, b: string, c: string)
    ensures (a + b) + c == a + (b + c)
  {
  }

  /** The links file on disk: whether it exists and, if so, its text. */
  class LinksFile {
    var present: bool
    var content: string

    constructor (present: bool, content: string)
      ensures this.present == present
      ensures this.content == (if present then content else "")
    {
      this.present := present;
      this.content := if present then content else "";
    }

    /** `tryopen`: a missing file is first created empty; the file is then opened for appending. */
    method TryOpen()
      modifies this
      ensures present
      ensures content == (if old(present) then old(content) else "")
    {
      if !present {
        present := true;
        content := "";
      }
    }

    /** The inner loop of `write_links`: one line per two consecutive windows of one scaffold. */
    method AppendConsecutive(ids: seq<string>)
      requires present
      modifies this
      ensures present
      ensures content == old(content) + Render(Consecutive(ids))
    {
      ghost var base := content;
      var i := 0;
      while i + 1 < |ids|
        invariant 0 <= i <= if |ids| == 0 then 0 else |ids| - 1
        invariant present
        invariant content == base + Render(Consecutive(ids)[..i])
      {
        var pair := (ids[i], ids[i + 1]);
        RenderConsecutiveStep(ids, i);
        AppendAssociates(base, Render(Consecutive(ids)[..i]), LinkLine(pair));
        content := content + LinkLine(pair);
        i := i + 1;
      }
      assert Consecutive(ids)[..i] == Consecutive(ids);
    }

    /** One pass of the outer loop of `write_links`: the links of entry `g` follow those of the entries before it. */
    method AppendScaffold(windows: Dict<string, seq<string>>, g: nat, ghost base: string)
      requires g < |windows| && present
      requires content == base + Render(LinkPairsUpTo(windows, g))
      modifies this
      ensures present
      ensures content == base + Render(LinkPairsUpTo(windows, g + 1))
    {
      AppendConsecutive(windows[g].1);
      RenderNextScaffold(windows, g);
      AppendAssociates(base, Render(LinkPairsUpTo(windows, g)), Render(Consecutive(windows[g].1)));
    }

    /** `write_links`: appends one line per consecutive pair of windows of each scaffold and reports success. */
    method WriteLinks(windows: Dict<string, seq<string>>) returns (complete: bool)
      modifies this
      ensures present && complete
      ensures content == (if old(present) then old(content) else "") + Render(LinkPairs(windows))
      ensures old(present) ==> old(content) <= content
    {
      TryOpen();
      ghost var base := content;
      var g := 0;
      while g < |windows|
        invariant 0 <= g <= |windows|
        invariant present
        invariant content == base + Render(LinkPairsUpTo(windows, g))
      {
        AppendScaffold(windows, g, base);
        g := g + 1;
      }
      complete := true;
    }
  }
}
