/**
 * `cleanUpText`: the whitespace clean-up of a region's joined text before it becomes a cue.
 * Each step of the source is a function here; `CleanUpText` runs the source's index loops
 * over a builder and is proved to compute their composition.
 */
module TtmlCleanUp {
  /** Step 1: every run of spaces becomes one space. */
  function Collapse(s: string): (r: string)
    ensures |r| <= |s|
    decreases |s|
  {
    if |s| >= 2 && s[0] == ' ' && s[1] == ' ' then Collapse(s[1..])
    else if s == [] then []
    else [s[0]] + Collapse(s[1..])
  }

  /** Steps 2 and 3: one leading or one trailing character `c` is deleted. */
  function DropLeading(s: string, c: char): (r: string)
  {
    if |s| > 0 && s[0] == c then s[1..] else s
  }

  function DropTrailing(s: string, c: char): (r: string)
  {
    if |s| > 0 && s[|s| - 1] == c then s[..|s| - 1] else s
  }

  /** Step 2: the space right after each newline is deleted; the scan resumes after it. */
  function DropAfterNewline(s: string): (r: string)
    ensures |r| <= |s|
    decreases |s|
  {
    if |s| >= 2 && s[0] == '\n' && s[1] == ' ' then [s[0]] + DropAfterNewline(s[2..])
    else if s == [] then []
    else [s[0]] + DropAfterNewline(s[1..])
  }

  /** Step 3: the space right before each newline is deleted; the scan resumes after the newline. */
  function DropBeforeNewline(s: string): (r: string)
    ensures |r| <= |s|
    decreases |s|
  {
    if |s| >= 2 && s[0] == ' ' && s[1] == '\n' then [s[1]] + DropBeforeNewline(s[2..])
    else if s == [] then []
    else [s[0]] + DropBeforeNewline(s[1..])
  }

  /** The four steps in the source's order; step 4 deletes one trailing newline. */
  function CleanUp(s: string): (r: string)
    ensures |r| <= |s|
  {
    var collapsed := Collapse(s);
    var lineStarts := DropAfterNewline(DropLeading(collapsed, ' '));
    var lineEnds := DropBeforeNewline(DropTrailing(lineStarts, ' '));
    DropTrailing(lineEnds, '\n')
  }

  // ---------------------------------------------------------------------------------------
  // what the result looks like

  predicate NoDoubleSpace(s: string) {
    forall i :: 0 <= i < |s| - 1 ==> !(s[i] == ' ' && s[i + 1] == ' ')
  }

  predicate NoSpaceAfterNewline(s: string) {
    forall i :: 0 <= i < |s| - 1 ==> !(s[i] == '\n' && s[i + 1] == ' ')
  }

  predicate NoSpaceBeforeNewline(s: string) {
    forall i :: 0 <= i < |s| - 1 ==> !(s[i] == ' ' && s[i + 1] == '\n')
  }

  /** The text without its spaces: what the clean-up must keep, in order. */
  function Unspaced(s: string): string {
    if s == [] then [] else (if s[0] == ' ' then [] else [s[0]]) + Unspaced(s[1..])
  }

  lemma {:induction false} UnspacedConcat(a: string, b: string)
    ensures Unspaced(a + b) == Unspaced(a) + Unspaced(b)
    decreases |a|
  {
    if a != [] {
      assert a + b == [a[0]] + (a[1..] + b);
      UnspacedCons(a[0], a[1..] + b);
      UnspacedConcat(a[1..], b);
      assert a == [a[0]] + a[1..];
      UnspacedCons(a[0], a[1..]);
    } else {
      assert a + b == b;
    }
  }

  lemma UnspacedCons(c: char, s: string)
    ensures Unspaced([c] + s) == (if c == ' ' then [] else [c]) + Unspaced(s)
  {
    assert ([c] + s)[1..] == s;
  }

  /** No pair `x y` in a text, as the three spacing rules state it. */
  predicate NoPair(s: string, x: char, y: char) {
    forall i :: 0 <= i < |s| - 1 ==> !(s[i] == x && s[i + 1] == y)
  }

  /** A character in front of a text keeps a pair out iff it does at the joint. */
  lemma ConsNoPair(c: char, t: string, x: char, y: char)
    ensures NoPair([c] + t, x, y) <==> NoPair(t, x, y) && !(t != [] && c == x && t[0] == y)
  {
    var r := [c] + t;
    if NoPair(t, x, y) && !(t != [] && c == x && t[0] == y) {
      forall i | 0 <= i < |r| - 1 ensures !(r[i] == x && r[i + 1] == y) {
        if i > 0 {
          assert r[i] == t[i - 1] && r[i + 1] == t[i];
        }
      }
    }
    if NoPair(r, x, y) {
      forall i | 0 <= i < |t| - 1 ensures !(t[i] == x && t[i + 1] == y) {
        assert r[i + 1] == t[i] && r[i + 2] == t[i + 1];
      }
      if t != [] {
        assert r[0] == c && r[1] == t[0];
      }
    }
  }

  /** A character in front of a text keeps the spacing rules iff it does at the joint. */
  lemma ConsSpacing(c: char, t: string)
    ensures NoDoubleSpace([c] + t) <==> NoDoubleSpace(t) && !(t != [] && c == ' ' && t[0] == ' ')
    ensures NoSpaceAfterNewline([c] + t) <==> NoSpaceAfterNewline(t) && !(t != [] && c == '\n' && t[0] == ' ')
    ensures NoSpaceBeforeNewline([c] + t) <==> NoSpaceBeforeNewline(t) && !(t != [] && c == ' ' && t[0] == '\n')
  {
    ConsNoPair(c, t, ' ', ' ');
    ConsNoPair(c, t, '\n', ' ');
    ConsNoPair(c, t, ' ', '\n');
    assert NoDoubleSpace([c] + t) == NoPair([c] + t, ' ', ' ') && NoDoubleSpace(t) == NoPair(t, ' ', ' ');
    assert NoSpaceAfterNewline([c] + t) == NoPair([c] + t, '\n', ' ') && NoSpaceAfterNewline(t) == NoPair(t, '\n', ' ');
    assert NoSpaceBeforeNewline([c] + t) == NoPair([c] + t, ' ', '\n') && NoSpaceBeforeNewline(t) == NoPair(t, ' ', '\n');
  }

  /** A suffix keeps the spacing rules. */
  lemma SuffixSpacing(s: string, k: nat)
    requires k <= |s|
    ensures NoDoubleSpace(s) ==> NoDoubleSpace(s[k..])
    ensures NoSpaceAfterNewline(s) ==> NoSpaceAfterNewline(s[k..])
    ensures NoSpaceBeforeNewline(s) ==> NoSpaceBeforeNewline(s[k..])
  {
    var t := s[k..];
    assert forall i :: 0 <= i < |t| ==> t[i] == s[i + k];
  }

  lemma {:induction false} CollapseProperties(s: string)
    ensures NoDoubleSpace(Collapse(s))
    ensures Unspaced(Collapse(s)) == Unspaced(s)
    ensures s != [] ==> Collapse(s) != [] && Collapse(s)[0] == s[0]
    decreases |s|
  {
    if |s| >= 2 && s[0] == ' ' && s[1] == ' ' {
      CollapseProperties(s[1..]);
      UnspacedCons(s[0], s[1..]);
      assert s == [s[0]] + s[1..];
    } else if s != [] {
      var rest := s[1..];
      CollapseProperties(rest);
      assert Collapse(s) == [s[0]] + Collapse(rest);
      UnspacedCons(s[0], rest);
      UnspacedCons(s[0], Collapse(rest));
      ConsSpacing(s[0], Collapse(rest));
      assert s == [s[0]] + rest;
    }
  }

  lemma {:induction false} DropAfterNewlineSpacing(s: string)
    requires NoDoubleSpace(s)
    ensures NoDoubleSpace(DropAfterNewline(s)) && NoSpaceAfterNewline(DropAfterNewline(s))
    ensures s != [] ==> DropAfterNewline(s) != [] && DropAfterNewline(s)[0] == s[0]
    decreases |s|
  {
    if s != [] {
      var skip := if |s| >= 2 && s[0] == '\n' && s[1] == ' ' then 2 else 1;
      var rest := s[skip..];
      SuffixSpacing(s, skip);
      DropAfterNewlineSpacing(rest);
      var tail := DropAfterNewline(rest);
      assert DropAfterNewline(s) == [s[0]] + tail;
      assert rest != [] ==> rest[0] == s[skip];
      ConsSpacing(s[0], tail);
    }
  }

  lemma {:induction false} DropAfterNewlineUnspaced(s: string)
    ensures Unspaced(DropAfterNewline(s)) == Unspaced(s)
    decreases |s|
  {
    if s != [] {
      var skip := if |s| >= 2 && s[0] == '\n' && s[1] == ' ' then 2 else 1;
      var rest := s[skip..];
      DropAfterNewlineUnspaced(rest);
      var tail := DropAfterNewline(rest);
      assert DropAfterNewline(s) == [s[0]] + tail;
      UnspacedCons(s[0], tail);
      UnspacedCons(s[0], s[1..]);
      assert s == [s[0]] + s[1..];
      if skip == 2 {
        assert s[1..] == [' '] + rest;
        UnspacedCons(' ', rest);
      }
    }
  }

  lemma {:induction false} DropBeforeNewlineSpacing(s: string)
    requires NoDoubleSpace(s) && NoSpaceAfterNewline(s)
    ensures var r := DropBeforeNewline(s);
      NoDoubleSpace(r) && NoSpaceAfterNewline(r) && NoSpaceBeforeNewline(r)
    ensures s != [] ==> var r := DropBeforeNewline(s);
      && r != []
      && (r[0] == s[0] || (s[0] == ' ' && r[0] == '\n'))
      && r[|r| - 1] == s[|s| - 1]
    decreases |s|
  {
    if s != [] {
      var pair := |s| >= 2 && s[0] == ' ' && s[1] == '\n';
      var skip := if pair then 2 else 1;
      var head := if pair then s[1] else s[0];
      var rest := s[skip..];
      SuffixSpacing(s, skip);
      DropBeforeNewlineSpacing(rest);
      var tail := DropBeforeNewline(rest);
      assert DropBeforeNewline(s) == [head] + tail;
      if rest != [] {
        assert rest[0] == s[skip];
        assert rest[|rest| - 1] == s[|s| - 1];
      }
      ConsSpacing(head, tail);
    }
  }

  lemma {:induction false} DropBeforeNewlineUnspaced(s: string)
    ensures Unspaced(DropBeforeNewline(s)) == Unspaced(s)
    decreases |s|
  {
    if s != [] {
      var pair := |s| >= 2 && s[0] == ' ' && s[1] == '\n';
      var skip := if pair then 2 else 1;
      var head := if pair then s[1] else s[0];
      var rest := s[skip..];
      DropBeforeNewlineUnspaced(rest);
      var tail := DropBeforeNewline(rest);
      assert DropBeforeNewline(s) == [head] + tail;
      UnspacedCons(head, tail);
      UnspacedCons(s[0], s[1..]);
      assert s == [s[0]] + s[1..];
      if pair {
        assert s[1..] == ['\n'] + rest;
        UnspacedCons('\n', rest);
      }
    }
  }

  lemma DropLeadingSpace(s: string)
    requires NoDoubleSpace(s)
    ensures var r := DropLeading(s, ' ');
      NoDoubleSpace(r) && Unspaced(r) == Unspaced(s) && (r != [] ==> r[0] != ' ')
  {
    if |s| > 0 && s[0] == ' ' {
      UnspacedCons(' ', s[1..]);
      assert s == [' '] + s[1..];
      assert |s| > 1 ==> s[1] != ' ';
    }
  }

  lemma DropTrailingChar(s: string, c: char)
    ensures var r := DropTrailing(s, c);
      && (forall i :: 0 <= i < |r| ==> r[i] == s[i])
      && (Unspaced(r) == Unspaced(s) || Unspaced(r) + [c] == Unspaced(s))
      && (c == ' ' ==> Unspaced(r) == Unspaced(s))
  {
    if |s| > 0 && s[|s| - 1] == c {
      var r := s[..|s| - 1];
      assert s == r + [c];
      UnspacedConcat(r, [c]);
      UnspacedCons(c, []);
    }
  }

  lemma PrefixKeepsSpacing(s: string, r: string)
    requires |r| <= |s| && forall i :: 0 <= i < |r| ==> r[i] == s[i]
    ensures NoDoubleSpace(s) ==> NoDoubleSpace(r)
    ensures NoSpaceAfterNewline(s) ==> NoSpaceAfterNewline(r)
    ensures NoSpaceBeforeNewline(s) ==> NoSpaceBeforeNewline(r)
  {
  }

  /**
   * The result of `cleanUpText`: no two spaces in a row, no space at either end, no space
   * next to a newline, and every other character kept in order, except one trailing
   * newline that may be gone.
   */
  lemma CleanUpProperties(s: string)
    ensures var r := CleanUp(s);
      && NoDoubleSpace(r) && NoSpaceAfterNewline(r) && NoSpaceBeforeNewline(r)
      && (r != [] ==> r[0] != ' ' && r[|r| - 1] != ' ')
      && (Unspaced(r) == Unspaced(s) || Unspaced(r) + "\n" == Unspaced(s))
  {
    var c1 := Collapse(s);
    CollapseProperties(s);
    var c2 := DropLeading(c1, ' ');
    DropLeadingSpace(c1);
    var c3 := DropAfterNewline(c2);
    DropAfterNewlineSpacing(c2);
    DropAfterNewlineUnspaced(c2);
    var c4 := DropTrailing(c3, ' ');
    DropTrailingChar(c3, ' ');
    PrefixKeepsSpacing(c3, c4);
    TrailingSpaceDropped(c3);
    var c5 := DropBeforeNewline(c4);
    DropBeforeNewlineSpacing(c4);
    DropBeforeNewlineUnspaced(c4);
    var r := DropTrailing(c5, '\n');
    DropTrailingChar(c5, '\n');
    PrefixKeepsSpacing(c5, r);
    TrailingNewlineDropped(c5);
  }

  /** Without double spaces, dropping one trailing space leaves no trailing space. */
  lemma TrailingSpaceDropped(s: string)
    requires NoDoubleSpace(s)
    ensures var r := DropTrailing(s, ' '); r != [] ==> r[|r| - 1] != ' '
  {
    var r := DropTrailing(s, ' ');
    if r != [] && r != s {
      assert s[|s| - 1] == ' ' && |s| >= 2;
      assert r[|r| - 1] == s[|s| - 2];
    }
  }

  /** Without a space before a newline, dropping one trailing newline uncovers no space. */
  lemma TrailingNewlineDropped(s: string)
    requires NoSpaceBeforeNewline(s) && (s != [] ==> s[|s| - 1] != ' ')
    ensures var r := DropTrailing(s, '\n'); r != [] ==> r[|r| - 1] != ' '
  {
    var r := DropTrailing(s, '\n');
    if r != [] && r != s {
      assert s[|s| - 2] == r[|r| - 1] && s[|s| - 1] == '\n';
    }
  }

  /** Runs of spaces become one. */
  lemma CollapsesRuns()
    ensures CleanUp("a   b") == "a b"
  {
    assert Collapse("a   b") == "a b" by {
      assert Collapse("b") == "b";
      assert Collapse(" b") == " b";
      assert Collapse("  b") == Collapse(" b");
      assert Collapse("   b") == Collapse("  b");
    }
    assert DropAfterNewline("a b") == "a b" by {
      assert DropAfterNewline("b") == "b";
      assert DropAfterNewline(" b") == " b";
    }
    assert DropBeforeNewline("a b") == "a b" by {
      assert DropBeforeNewline("b") == "b";
      assert DropBeforeNewline(" b") == " b";
    }
  }

  /** Spaces at line starts and ends go, and so does the trailing space of the text. */
  lemma TrimsLines()
    ensures CleanUp(" x \n y ") == "x\ny"
  {
    TrimsLinesCollapse();
    TrimsLinesStarts();
    TrimsLinesEnds();
    assert DropLeading(" x \n y ", ' ') == "x \n y ";
    assert DropTrailing("x \ny ", ' ') == "x \ny";
    assert DropTrailing("x\ny", '\n') == "x\ny";
  }

  lemma TrimsLinesCollapse()
    ensures Collapse(" x \n y ") == " x \n y "
  {
    assert Collapse(" ") == " ";
    assert Collapse("y ") == "y ";
    assert Collapse(" y ") == " y ";
    assert Collapse("\n y ") == "\n y ";
    assert Collapse(" \n y ") == " \n y ";
    assert Collapse("x \n y ") == "x \n y ";
  }

  lemma TrimsLinesStarts()
    ensures DropAfterNewline("x \n y ") == "x \ny "
  {
    assert DropAfterNewline(" ") == " ";
    assert DropAfterNewline("y ") == "y ";
    assert DropAfterNewline("\n y ") == "\ny ";
    assert DropAfterNewline(" \n y ") == " \ny ";
  }

  lemma TrimsLinesEnds()
    ensures DropBeforeNewline("x \ny") == "x\ny"
  {
    assert DropBeforeNewline("y") == "y";
    assert DropBeforeNewline(" \ny") == "\ny";
  }

  /** Cleaning up twice is not cleaning up once: the second pass removes another newline. */
  lemma NotIdempotent()
    ensures CleanUp("a \n\n") == "a\n"
    ensures CleanUp("a\n") == "a"
  {
    assert Collapse("a \n\n") == "a \n\n" by {
      assert Collapse("\n") == "\n";
      assert Collapse("\n\n") == "\n\n";
      assert Collapse(" \n\n") == " \n\n";
    }
    assert DropAfterNewline("a \n\n") == "a \n\n" by {
      assert DropAfterNewline("\n") == "\n";
      assert DropAfterNewline("\n\n") == "\n\n";
      assert DropAfterNewline(" \n\n") == " \n\n";
    }
    assert DropBeforeNewline("a \n\n") == "a\n\n" by {
      assert DropBeforeNewline("\n") == "\n";
      assert DropBeforeNewline(" \n\n") == "\n\n";
    }
    assert Collapse("a\n") == "a\n" by {
      assert Collapse("\n") == "\n";
    }
    assert DropAfterNewline("a\n") == "a\n" by {
      assert DropAfterNewline("\n") == "\n";
    }
    assert DropBeforeNewline("a\n") == "a\n" by {
      assert DropBeforeNewline("\n") == "\n";
    }
  }

  // ---------------------------------------------------------------------------------------
  // the source's loops over the builder

  /** A run of k + 1 spaces collapses like a single space. */
  lemma {:induction false} CollapseRun(s: string, k: nat)
    requires k < |s| && forall m :: 0 <= m <= k ==> s[m] == ' '
    ensures Collapse(s) == Collapse(s[k..])
    decreases k
  {
    if k > 0 {
      CollapseRun(s[1..], k - 1);
      assert s[1..][k - 1..] == s[k..];
    }
  }

  /** Keeping the character at `i` when it does not start a double space preserves the step 1 loop invariant. */
  lemma CollapseKeep(s: string, b: string, i: nat)
    requires i < |b| && Collapse(s) == b[..i] + Collapse(b[i..])
    requires !(i + 1 < |b| && b[i] == ' ' && b[i + 1] == ' ')
    ensures Collapse(s) == b[..i + 1] + Collapse(b[i + 1..])
  {
    assert b[i..][1..] == b[i + 1..];
    assert b[..i + 1] == b[..i] + [b[i]];
  }

  /** Deleting the `n` spaces after the space at `i` preserves the step 1 loop invariant. */
  lemma CollapseDeleteRun(s: string, b: string, i: nat, n: nat)
    requires i + n < |b| && forall m :: i <= m <= i + n ==> b[m] == ' '
    requires Collapse(s) == b[..i] + Collapse(b[i..])
    ensures var c := b[..i] + b[i + n..];
      && |c| == |b| - n && c[i] == ' '
      && (forall m :: i <= m < |c| ==> c[m] == b[m + n])
      && Collapse(s) == c[..i] + Collapse(c[i..])
  {
    var c := b[..i] + b[i + n..];
    CollapseRun(b[i..], n);
    assert b[i..][n..] == b[i + n..] == c[i..];
    assert c[..i] == b[..i];
  }

  /** Step 1: for each space, the spaces after it up to the next other character are deleted. */
  method CollapseSpaces(s: string) returns (b: string)
    ensures b == Collapse(s)
  {
    b := s;
    var length := |b|;
    var i := 0;
    while i < length
      invariant length == |b| && 0 <= i <= length
      invariant Collapse(s) == b[..i] + Collapse(b[i..])
      decreases length - i
    {
      if b[i] == ' ' {
        var j := i + 1;
        while j < |b| && b[j] == ' '
          invariant i + 1 <= j <= |b|
          invariant forall m :: i <= m < j ==> b[m] == ' '
        {
          j := j + 1;
        }
        var spacesToDelete := j - (i + 1);
        if spacesToDelete > 0 {
          CollapseDeleteRun(s, b, i, spacesToDelete);
          b := b[..i] + b[i + spacesToDelete..];
          length := length - spacesToDelete;
        }
      }
      CollapseKeep(s, b, i);
      i := i + 1;
    }
    assert b[..i] == b;
  }

  lemma DropAfterNewlineAt(b: string, i: nat)
    requires i < |b|
    ensures DropAfterNewline(b[i..])
         == if i + 1 < |b| && b[i] == '\n' && b[i + 1] == ' ' then ['\n'] + DropAfterNewline(b[i + 2..])
            else [b[i]] + DropAfterNewline(b[i + 1..])
  {
    assert b[i..][1..] == b[i + 1..];
    if i + 1 < |b| {
      assert b[i..][2..] == b[i + 2..];
    }
  }

  lemma DropBeforeNewlineAt(b: string, i: nat)
    requires i < |b|
    ensures DropBeforeNewline(b[i..])
         == if i + 1 < |b| && b[i] == ' ' && b[i + 1] == '\n' then ['\n'] + DropBeforeNewline(b[i + 2..])
            else [b[i]] + DropBeforeNewline(b[i + 1..])
  {
    assert b[i..][1..] == b[i + 1..];
    if i + 1 < |b| {
      assert b[i..][2..] == b[i + 2..];
    }
  }

  /** One iteration of step 2's loop at index `i`: the text decided so far grows by one character. */
  lemma DropAfterNewlineStep(b: string, i: nat)
    requires i + 1 < |b|
    ensures b[i] == '\n' && b[i + 1] == ' ' ==> var next := b[..i + 1] + b[i + 2..];
      b[..i] + DropAfterNewline(b[i..]) == next[..i + 1] + DropAfterNewline(next[i + 1..])
    ensures !(b[i] == '\n' && b[i + 1] == ' ') ==>
      b[..i] + DropAfterNewline(b[i..]) == b[..i + 1] + DropAfterNewline(b[i + 1..])
  {
    DropAfterNewlineAt(b, i);
    if b[i] == '\n' && b[i + 1] == ' ' {
      var next := b[..i + 1] + b[i + 2..];
      assert next[..i + 1] == b[..i] + ['\n'];
      assert next[i + 1..] == b[i + 2..];
    } else {
      assert b[..i + 1] == b[..i] + [b[i]];
    }
  }

  /** One iteration of step 3's loop at index `i`. */
  lemma DropBeforeNewlineStep(b: string, i: nat)
    requires i + 1 < |b|
    ensures b[i] == ' ' && b[i + 1] == '\n' ==> var next := b[..i] + b[i + 1..];
      b[..i] + DropBeforeNewline(b[i..]) == next[..i + 1] + DropBeforeNewline(next[i + 1..])
    ensures !(b[i] == ' ' && b[i + 1] == '\n') ==>
      b[..i] + DropBeforeNewline(b[i..]) == b[..i + 1] + DropBeforeNewline(b[i + 1..])
  {
    DropBeforeNewlineAt(b, i);
    if b[i] == ' ' && b[i + 1] == '\n' {
      var next := b[..i] + b[i + 1..];
      assert next[..i + 1] == b[..i] + ['\n'];
      assert next[i + 1..] == b[i + 2..];
    } else {
      assert b[..i + 1] == b[..i] + [b[i]];
    }
  }

  /** Step 2: the first character if it is a space, then each space after a newline. */
  method DropLineStartSpaces(s: string) returns (b: string)
    ensures b == DropAfterNewline(DropLeading(s, ' '))
  {
    b := s;
    var length := |b|;
    if length > 0 && b[0] == ' ' {
      b := b[1..];
      length := length - 1;
    }
    ghost var start := b;
    var i := 0;
    while i < length - 1
      invariant length == |b| && 0 <= i <= length
      invariant DropAfterNewline(start) == b[..i] + DropAfterNewline(b[i..])
      decreases length - i
    {
      if b[i] == '\n' && b[i + 1] == ' ' {
        DropAfterNewlineStep(b, i);
        b := b[..i + 1] + b[i + 2..];
        length := length - 1;
      } else {
        DropAfterNewlineStep(b, i);
      }
      i := i + 1;
    }
    assert DropAfterNewline(b[i..]) == b[i..];
    assert b[..i] + b[i..] == b;
  }

  /** Step 3: the last character if it is a space, then each space before a newline. */
  method DropLineEndSpaces(s: string) returns (b: string)
    ensures b == DropBeforeNewline(DropTrailing(s, ' '))
  {
    b := s;
    var length := |b|;
    if length > 0 && b[length - 1] == ' ' {
      b := b[..length - 1];
    }
    b := DropSpacesBeforeNewlines(b);
  }

  /** The loop of step 3. */
  method DropSpacesBeforeNewlines(s: string) returns (b: string)
    ensures b == DropBeforeNewline(s)
  {
    b := s;
    var length := |b|;
    var i := 0;
    while i < length - 1
      invariant length == |b| && 0 <= i <= length
      invariant DropBeforeNewline(s) == b[..i] + DropBeforeNewline(b[i..])
      decreases length - i
    {
      if b[i] == ' ' && b[i + 1] == '\n' {
        DropBeforeNewlineStep(b, i);
        b := b[..i] + b[i + 1..];
        length := length - 1;
      } else {
        DropBeforeNewlineStep(b, i);
      }
      i := i + 1;
    }
    assert DropBeforeNewline(b[i..]) == b[i..];
    assert b[..i] + b[i..] == b;
  }

  /** `cleanUpText` on the builder's text. */
  method CleanUpText(text: string) returns (r: string)
    ensures r == CleanUp(text)
  {
    var b := CollapseSpaces(text);
    b := DropLineStartSpaces(b);
    b := DropLineEndSpaces(b);
    var length := |b|;
    if length > 0 && b[length - 1] == '\n' {
      b := b[..length - 1];
    }
    r := b;
  }
}
