/**
 * Key addressing: a key such as `my:nested:key` names the path of property
 * names `["my", "nested", "key"]` from the root of the store.
 */
module KeyPath {
  import opened Wrappers

  const Delimiter: char := ':'

  /** `s.split(':')`: the pieces of `s` between delimiters; never empty. */
  function Split(s: string): (r: seq<string>)
    ensures |r| >= 1
    decreases |s|
  {
    if |s| == 0 then [""]
    else
      if s[0] == Delimiter then [""] + Split(s[1..])
      else Prepend(s[0], Split(s[1..]))
  }

  /** `segs.join(':')`. */
  function Join(segs: seq<string>): string
    decreases |segs|
  {
    if |segs| == 0 then ""
    else if |segs| == 1 then segs[0]
    else segs[0] + [Delimiter] + Join(segs[1..])
  }

  /** `common.path`: an absent (`null`/`undefined`) key addresses the root. */
  function Path(key: Option<string>): (r: seq<string>)
    ensures key.None? <==> |r| == 0
  {
    match key
    case None => []
    case Some(s) => Split(s)
  }

  /** How `Array.prototype.join` renders a key: `null`/`undefined` as the empty string. */
  function KeyText(key: Option<string>): string {
    key.GetOr("")
  }

  /** `common.key(fullKey, nested)`: the key of child `nested` under `fullKey`. */
  function ChildKey(key: Option<string>, nested: string): string {
    Join([KeyText(key), nested])
  }

  /** Joining the pieces of a key reproduces the key. */
  lemma {:induction false} JoinSplit(s: string)
    ensures Join(Split(s)) == s
    decreases |s|
  {
    if |s| > 0 {
      var rest := Split(s[1..]);
      JoinSplit(s[1..]);
      if s[0] == Delimiter {
        assert Split(s) == [""] + rest;
        assert ([""] + rest)[1..] == rest;
        assert s == [s[0]] + s[1..];
      } else {
        var r := Split(s);
        assert r == [[s[0]] + rest[0]] + rest[1..];
        if |rest| == 1 {
          assert s == [s[0]] + rest[0];
        } else {
          assert r[1..] == rest[1..];
          assert Join(rest) == rest[0] + [Delimiter] + Join(rest[1..]);
          assert s == [s[0]] + s[1..];
        }
      }
    }
  }

  /** A key without a delimiter is a single piece. */
  lemma {:induction false} SplitPlain(s: string)
    requires Delimiter !in s
    ensures Split(s) == [s]
    decreases |s|
  {
    if |s| > 0 {
      assert Delimiter !in s[1..] by {
        forall i | 0 <= i < |s[1..]| ensures s[1..][i] != Delimiter {
          assert s[1..][i] == s[i + 1];
        }
      }
      SplitPlain(s[1..]);
      assert s == [s[0]] + s[1..];
    }
  }

  /** No piece of a split key contains the delimiter. */
  lemma {:induction false} SplitPieces(s: string)
    ensures forall i :: 0 <= i < |Split(s)| ==> Delimiter !in Split(s)[i]
    decreases |s|
  {
    if |s| > 0 {
      SplitPieces(s[1..]);
      var rest := Split(s[1..]);
      var r := Split(s);
      if s[0] == Delimiter {
        assert r == [""] + rest;
        forall i | 0 <= i < |r|
          ensures Delimiter !in r[i]
        {
          if i > 0 {
            assert r[i] == rest[i - 1];
          }
        }
      } else {
        assert r == Prepend(s[0], rest);
        forall i | 0 <= i < |r|
          ensures Delimiter !in r[i]
        {
          if i == 0 {
            assert r[0] == [s[0]] + rest[0];
          } else {
            assert r[i] == rest[i];
          }
        }
      }
    }
  }

  /** Extends the first piece of `r` by the character `c` at its front. */
  function Prepend(c: char, r: seq<string>): (r': seq<string>)
    requires |r| >= 1
    ensures |r'| == |r|
  {
    [[c] + r[0]] + r[1..]
  }

  /** Extending the first piece does not touch the pieces appended after. */
  lemma PrependAppend(c: char, ra: seq<string>, rb: seq<string>)
    requires |ra| >= 1
    ensures Prepend(c, ra + rb) == Prepend(c, ra) + rb
  {
    assert (ra + rb)[0] == ra[0];
    assert (ra + rb)[1..] == ra[1..] + rb;
  }

  /** Splitting a string with a known first character. */
  lemma SplitCons(c: char, s: string)
    ensures Split([c] + s) ==
      if c == Delimiter then [""] + Split(s) else Prepend(c, Split(s))
  {
    assert ([c] + s)[0] == c;
    assert ([c] + s)[1..] == s;
  }

  /** Splitting `a:b` splits `a` and `b` separately. */
  lemma {:induction false} SplitAround(a: string, b: string)
    ensures Split(a + [Delimiter] + b) == Split(a) + Split(b)
    decreases |a|
  {
    if |a| == 0 {
      assert a + [Delimiter] + b == [Delimiter] + b;
      SplitCons(Delimiter, b);
    } else {
      var a' := a[1..];
      var tail := a' + [Delimiter] + b;
      assert a + [Delimiter] + b == [a[0]] + tail;
      assert a == [a[0]] + a';
      SplitCons(a[0], tail);
      SplitCons(a[0], a');
      SplitAround(a', b);
      if a[0] != Delimiter {
        PrependAppend(a[0], Split(a'), Split(b));
      } else {
        assert [""] + (Split(a') + Split(b)) == ([""] + Split(a')) + Split(b);
      }
    }
  }

  /** Pieces without delimiters survive joining and splitting again. */
  lemma {:induction false} SplitJoin(segs: seq<string>)
    requires |segs| >= 1
    requires forall i :: 0 <= i < |segs| ==> Delimiter !in segs[i]
    ensures Split(Join(segs)) == segs
    decreases |segs|
  {
    SplitPlain(segs[0]);
    if |segs| > 1 {
      SplitJoin(segs[1..]);
      SplitAround(segs[0], Join(segs[1..]));
      assert segs == [segs[0]] + segs[1..];
    }
  }

  /** The key `merge` builds for child `nested` extends the parent's path. */
  lemma PathOfChildKey(key: Option<string>, nested: string)
    ensures Path(Some(ChildKey(key, nested))) == Split(KeyText(key)) + Split(nested)
  {
    var segs := [KeyText(key), nested];
    assert segs[1..] == [nested];
    assert Join([nested]) == nested;
    assert Join(segs) == segs[0] + [Delimiter] + Join(segs[1..]);
    assert ChildKey(key, nested) == KeyText(key) + [Delimiter] + nested;
    SplitAround(KeyText(key), nested);
  }
}
