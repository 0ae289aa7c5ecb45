/** Reading a text file line by line, as `for line in f` does (after newline translation),
    and `re.sub(pattern, "", line)` for a pattern that is a plain literal. */
module PyFile {
  import opened PyText

  /** The lines `for line in f` yields for a file holding `s`: each line keeps its '\n',
      and a last line without one is yielded as it is. */
  function Lines(s: string): seq<string>
    decreases |s|
  {
    if s == [] then []
    else
      var n := LineLength(s);
      [s[..n]] + Lines(s[n..])
  }

  /** The length of the first line of a non-empty text: up to and including its first
      '\n', or the whole text when there is none. */
  function LineLength(s: string): (n: nat)
    requires s != []
    ensures 1 <= n <= |s|
    decreases |s|
  {
    if s[0] == '\n' || |s| == 1 then 1 else 1 + LineLength(s[1..])
  }

  /** The concatenation of a sequence of texts, as writing them one after another. */
  function Flatten(parts: seq<string>): string
    decreases |parts|
  {
    if parts == [] then "" else parts[0] + Flatten(parts[1..])
  }

  /** A line is non-empty and holds a '\n' at most as its last character. */
  predicate IsLine(l: string)
  {
    l != [] && forall i :: 0 <= i < |l| - 1 ==> l[i] != '\n'
  }

  lemma {:induction false} LineLengthShape(s: string)
    requires s != []
    ensures IsLine(s[..LineLength(s)])
    ensures LineLength(s) < |s| ==> s[LineLength(s) - 1] == '\n'
    decreases |s|
  {
    if !(s[0] == '\n' || |s| == 1) {
      LineLengthShape(s[1..]);
      assert s[..LineLength(s)] == [s[0]] + s[1..][..LineLength(s[1..])];
    }
  }

  /** Writing the lines back one after the other gives the file again. */
  lemma {:induction false} LinesFlatten(s: string)
    ensures Flatten(Lines(s)) == s
    decreases |s|
  {
    if s != [] {
      var n := LineLength(s);
      LinesFlatten(s[n..]);
      assert s[..n] + s[n..] == s;
    }
  }

  /** Every line is a line, and every line but the last ends with '\n'. */
  lemma {:induction false} LinesShape(s: string)
    ensures forall i :: 0 <= i < |Lines(s)| ==> IsLine(Lines(s)[i])
    ensures forall i :: 0 <= i < |Lines(s)| - 1 ==> EndsWith(Lines(s)[i], "\n")
    decreases |s|
  {
    if s != [] {
      var n := LineLength(s);
      var rest := Lines(s[n..]);
      LineLengthShape(s);
      LinesShape(s[n..]);
      assert Lines(s) == [s[..n]] + rest;
      if rest != [] {
        assert s[n..] != [];
        assert s[..n][n - 1..] == "\n";
      }
    }
  }

  /** `re.sub(pat, "", s)` for a literal, non-empty `pat`: every occurrence, from the left
      and without overlap, removed. */
  function Remove(s: string, pat: string): string
    requires pat != []
    decreases |s|
  {
    if s == [] then []
    else if StartsWith(s, pat) then Remove(s[|pat|..], pat)
    else [s[0]] + Remove(s[1..], pat)
  }

  /** A text holding no occurrence of the pattern is left as it is. */
  lemma {:induction false} RemoveAbsent(s: string, pat: string)
    requires pat != [] && !Contains(s, pat)
    ensures Remove(s, pat) == s
    decreases |s|
  {
    if s != [] {
      assert !StartsWith(s, pat) by {
        assert !OccursAt(s, pat, 0);
      }
      assert !Contains(s[1..], pat) by {
        forall i | 0 <= i <= |s[1..]|
          ensures !OccursAt(s[1..], pat, i)
        {
          assert !OccursAt(s, pat, i + 1);
          if i <= |s[1..]| - |pat| {
            assert s[1..][i..i + |pat|] == s[i + 1..i + 1 + |pat|];
          }
        }
      }
      RemoveAbsent(s[1..], pat);
    }
  }

  /** On a line, a pattern whose only '\n' is its last character can occur only at the end
      of the line: `re.sub` then removes just that final occurrence. */
  lemma {:induction false} RemoveFromLine(l: string, pat: string)
    requires IsLine(l) && pat != [] && pat[|pat| - 1] == '\n'
    ensures EndsWith(l, pat) ==> Remove(l, pat) == l[..|l| - |pat|]
    ensures !EndsWith(l, pat) ==> Remove(l, pat) == l
  {
    var k := |l| - |pat|;
    if EndsWith(l, pat) {
      var head := l[..k];
      forall i | 0 <= i < |head|
        ensures !StartsWith((head + l[k..])[i..], pat)
      {
        assert (head + l[k..])[i..] == l[i..];
        assert l[i + |pat| - 1] != '\n';
        assert |pat| <= |l[i..]| ==> l[i..][|pat| - 1] == l[i + |pat| - 1];
      }
      RemoveAfter(head, l[k..], pat);
      assert head + l[k..] == l;
      assert Remove(l[k..], pat) == [] by {
        assert StartsWith(l[k..], pat);
        assert l[k..][|pat|..] == [];
      }
      assert head + [] == head;
    } else {
      forall i | 0 <= i <= |l|
        ensures !OccursAt(l, pat, i)
      {
        if i < k {
          assert l[i + |pat| - 1] != '\n';
          assert |pat| <= |l[i..]| ==> l[i..i + |pat|][|pat| - 1] == l[i + |pat| - 1];
        } else if i == k {
          assert l[|l| - |pat|..] == l[i..i + |pat|];
        }
      }
      RemoveAbsent(l, pat);
    }
  }

  /** When no occurrence starts inside `a` (none fits before `b` is reached), the removal
      of `a + b` is `a` followed by the removal of `b`. */
  lemma {:induction false} RemoveAfter(a: string, b: string, pat: string)
    requires pat != []
    requires forall i :: 0 <= i < |a| ==> !StartsWith((a + b)[i..], pat)
    ensures Remove(a + b, pat) == a + Remove(b, pat)
    decreases |a|
  {
    if a != [] {
      assert (a + b)[0..] == a + b;
      assert (a + b)[1..] == a[1..] + b;
      forall i | 0 <= i < |a[1..]|
        ensures !StartsWith((a[1..] + b)[i..], pat)
      {
        assert (a[1..] + b)[i..] == (a + b)[i + 1..];
      }
      RemoveAfter(a[1..], b, pat);
      assert !StartsWith(a + b, pat);
      assert Remove(a + b, pat) == [a[0]] + Remove(a[1..] + b, pat);
      ConcatAssoc([a[0]], a[1..], Remove(b, pat));
      assert [a[0]] + a[1..] == a;
    } else {
      assert a + b == b;
    }
  }

  /** Writing one more text after some. */
  lemma {:induction false} FlattenAppend(parts: seq<string>, last: string)
    ensures Flatten(parts + [last]) == Flatten(parts) + last
    decreases |parts|
  {
    if parts == [] {
      assert [] + [last] == [last];
      assert Flatten([last][1..]) == "";
    } else {
      assert (parts + [last])[1..] == parts[1..] + [last];
      FlattenAppend(parts[1..], last);
    }
  }
}
