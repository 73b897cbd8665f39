/** The three JavaScript array operations the OTP editor chains together:
    `String.prototype.split("")`, an indexed store `a[i] = v` that may write
    past the end of the array (leaving holes), and `Array.prototype.join("")`,
    which writes every hole as the empty string. */
module JsArray {

  /** One element of a JavaScript array: a hole (never written) or a string. */
  datatype Cell = Hole | Str(text: string)

  /** How `join` renders one element. */
  function Text(c: Cell): string
  {
    match c
    case Hole => ""
    case Str(t) => t
  }

  /** `s.split("")`: one single-character string per character of `s`. */
  function Split(s: string): (a: seq<Cell>)
    ensures |a| == |s|
    ensures forall k :: 0 <= k < |s| ==> a[k] == Str([s[k]])
  {
    if s == [] then [] else [Str([s[0]])] + Split(s[1..])
  }

  /** `n` consecutive holes. */
  function Holes(n: nat): seq<Cell>
  {
    if n == 0 then [] else [Hole] + Holes(n - 1)
  }

  /** `a[i] = v`: overwrites element `i`, or, when `i` is at or past the end,
      grows the array to length `i + 1` with holes in between. */
  function Store(a: seq<Cell>, i: nat, v: string): (r: seq<Cell>)
    ensures |r| == if i < |a| then |a| else i + 1
    ensures r[i] == Str(v)
    ensures forall k :: 0 <= k < |a| && k != i ==> r[k] == a[k]
    ensures forall k :: |a| <= k < i ==> r[k] == Hole
  {
    if i < |a| then a[i := Str(v)]
    else HolesAt(i - |a|); a + Holes(i - |a|) + [Str(v)]
  }

  /** `a.join("")`. */
  function Join(a: seq<Cell>): string
  {
    if a == [] then "" else Text(a[0]) + Join(a[1..])
  }

  lemma {:induction false} HolesAt(n: nat)
    ensures |Holes(n)| == n
    ensures forall k :: 0 <= k < n ==> Holes(n)[k] == Hole
  {
    if n > 0 {
      HolesAt(n - 1);
    }
  }

  /** Joining distributes over concatenation. */
  lemma {:induction false} JoinConcat(a: seq<Cell>, b: seq<Cell>)
    ensures Join(a + b) == Join(a) + Join(b)
  {
    if a == [] {
      assert a + b == b;
    } else {
      assert (a + b)[1..] == a[1..] + b;
      JoinConcat(a[1..], b);
    }
  }

  /** Holes contribute nothing to the joined string. */
  lemma {:induction false} JoinHoles(n: nat)
    ensures Join(Holes(n)) == ""
  {
    if n > 0 {
      assert ([Hole] + Holes(n - 1))[1..] == Holes(n - 1);
      JoinHoles(n - 1);
    }
  }

  /** Joining what `split("")` produced gives back the string. */
  lemma {:induction false} JoinSplit(s: string)
    ensures Join(Split(s)) == s
  {
    if s != [] {
      assert Split(s)[1..] == Split(s[1..]);
      JoinSplit(s[1..]);
    }
  }

  /** A one-element array joins to its element. */
  lemma JoinSingle(v: string)
    ensures Join([Str(v)]) == v
  {
  }

  /** `split("")` distributes over concatenation. */
  lemma {:induction false} SplitConcat(a: string, b: string)
    ensures Split(a + b) == Split(a) + Split(b)
  {
    if a == [] {
      assert a + b == b;
    } else {
      assert (a + b)[0] == a[0] && (a + b)[1..] == a[1..] + b;
      SplitConcat(a[1..], b);
    }
  }

  /** Overwriting the element between two parts of an array. */
  lemma UpdateMiddle(front: seq<Cell>, x: Cell, back: seq<Cell>, y: Cell)
    ensures (front + [x] + back)[|front| := y] == front + [y] + back
  {
  }

  /** Overwriting element `i` of `split("")` splits the string around
      position `i`, with `v` in between. */
  lemma SplitUpdate(s: string, i: nat, v: string)
    requires i < |s|
    ensures Split(s)[i := Str(v)] == Split(s[..i]) + [Str(v)] + Split(s[i + 1..])
  {
    var front, back := s[..i], s[i + 1..];
    assert s == front + [s[i]] + back;
    SplitConcat(front + [s[i]], back);
    SplitConcat(front, [s[i]]);
    assert Split([s[i]]) == [Str([s[i]])];
    UpdateMiddle(Split(front), Str([s[i]]), Split(back), Str(v));
  }

  /** Storing inside the string replaces one character by `v` (removing it
      when `v` is empty). */
  lemma {:induction false} JoinStoreInside(s: string, i: nat, v: string)
    requires i < |s|
    ensures Join(Store(Split(s), i, v)) == s[..i] + v + s[i + 1..]
  {
    JoinSingle(v);
    var front, back := Split(s[..i]), Split(s[i + 1..]);
    SplitUpdate(s, i, v);
    JoinConcat(front + [Str(v)], back);
    JoinConcat(front, [Str(v)]);
    JoinSplit(s[..i]);
    JoinSplit(s[i + 1..]);
  }

  /** Storing at or past the end appends `v`: the holes join as "". */
  lemma {:induction false} JoinStorePastEnd(s: string, i: nat, v: string)
    requires |s| <= i
    ensures Join(Store(Split(s), i, v)) == s + v
  {
    var split, holes := Split(s), Holes(i - |s|);
    assert Store(split, i, v) == split + holes + [Str(v)];
    JoinSplit(s);
    JoinHoles(i - |s|);
    JoinConcat(split, holes);
    assert Join(split + holes) == s;
    JoinSingle(v);
    JoinConcat(split + holes, [Str(v)]);
  }
}
