/** The two JavaScript array operations the upload handler relies on, over
    sequences of strings: `includes` and `join`. */
module Text {

  /** `Array.prototype.includes` on strings: a left-to-right scan comparing
      each element for exact equality (no case folding, no trimming). */
  function Includes(xs: seq<string>, x: string): (r: bool)
    ensures r <==> x in xs
  {
    if |xs| == 0 then false
    else if xs[0] == x then true
    else Includes(xs[1..], x)
  }

  /** The summed length of all strings in `xs`. */
  function TotalLength(xs: seq<string>): nat
  {
    if |xs| == 0 then 0 else |xs[0]| + TotalLength(xs[1..])
  }

  /** `Array.prototype.join`: the elements in order with `sep` between each
      adjacent pair; the empty array joins to the empty string. */
  function Join(xs: seq<string>, sep: string): (r: string)
    ensures |xs| == 0 ==> r == ""
    ensures |xs| > 0 ==> |r| == TotalLength(xs) + (|xs| - 1) * |sep|
    ensures |xs| > 0 ==> r[..|xs[0]|] == xs[0]
  {
    if |xs| == 0 then ""
    else if |xs| == 1 then xs[0]
    else xs[0] + sep + Join(xs[1..], sep)
  }

  /** Joining a list of two or more elements puts the first element, then
      the separator, before the join of the rest. */
  lemma JoinCons(x: string, xs: seq<string>, sep: string)
    requires |xs| > 0
    ensures Join([x] + xs, sep) == x + sep + Join(xs, sep)
  {
    assert ([x] + xs)[1..] == xs;
  }

  /** Joining five strings, spelled out. */
  lemma JoinFive(a: string, b: string, c: string, d: string, e: string, sep: string)
    ensures Join([a, b, c, d, e], sep) == a + (sep + (b + (sep + (c + (sep + (d + (sep + e)))))))
  {
    var de, cde, bcde := [d, e], [c, d, e], [b, c, d, e];
    assert Join(de, sep) == d + (sep + e) by {
      assert de == [d] + [e];
      JoinCons(d, [e], sep);
    }
    assert Join(cde, sep) == c + (sep + Join(de, sep)) by {
      assert cde == [c] + de;
      JoinCons(c, de, sep);
    }
    assert Join(bcde, sep) == b + (sep + Join(cde, sep)) by {
      assert bcde == [b] + cde;
      JoinCons(b, cde, sep);
    }
    assert Join([a, b, c, d, e], sep) == a + (sep + Join(bcde, sep)) by {
      assert [a, b, c, d, e] == [a] + bcde;
      JoinCons(a, bcde, sep);
    }
  }

  /** Joining two non-empty lists equals joining each and putting one
      separator between them: every element keeps its place and order. */
  lemma {:induction false} JoinAppend(xs: seq<string>, ys: seq<string>, sep: string)
    requires |xs| > 0 && |ys| > 0
    ensures Join(xs + ys, sep) == Join(xs, sep) + sep + Join(ys, sep)
  {
    if |xs| == 1 {
      assert (xs + ys)[0] == xs[0];
      assert (xs + ys)[1..] == ys;
    } else {
      assert (xs + ys)[1..] == xs[1..] + ys;
      JoinAppend(xs[1..], ys, sep);
    }
  }
}
