/** Counting the characters of a text that are not blanks: padding does not change
    the count, so texts with different counts differ however they are padded. */
module PrintfInk {
  import opened PrintfModel

  function Ink(t: Text): nat {
    if t == "" then 0 else (if t[0] == ' ' then 0 else 1) + Ink(t[1..])
  }

  lemma {:induction false} InkConcat(a: Text, b: Text)
    ensures Ink(a + b) == Ink(a) + Ink(b)
  {
    if a == "" {
      assert a + b == b;
    } else {
      assert (a + b)[1..] == a[1..] + b;
      InkConcat(a[1..], b);
    }
  }

  lemma {:induction false} InkBound(t: Text)
    ensures Ink(t) <= |t|
  {
    if t != "" { InkBound(t[1..]); }
  }

  lemma {:induction false} InkFull(t: Text)
    requires forall i :: 0 <= i < |t| ==> t[i] != ' '
    ensures Ink(t) == |t|
  {
    if t != "" { InkFull(t[1..]); }
  }

  lemma {:induction false} InkBlanks(n: nat)
    ensures Ink(Repeat(' ', n)) == 0
  {
    if n > 0 {
      assert Repeat(' ', n)[1..] == Repeat(' ', n - 1);
      InkBlanks(n - 1);
    }
  }

  lemma {:induction false} InkReverse(t: Text)
    ensures Ink(Reverse(t)) == Ink(t)
  {
    if t != "" {
      var rest := t[1..];
      assert Reverse(t) == Reverse(rest) + [t[0]];
      InkConcat(Reverse(rest), [t[0]]);
      InkReverse(rest);
      assert Ink([t[0]]) == if t[0] == ' ' then 0 else 1;
    }
  }

  /** _out_rev adds blanks only. */
  lemma {:induction false} InkField(rev: Text, width: nat, f: Flags)
    ensures Ink(Field(rev, width, f)) == Ink(rev)
  {
    var pre := if !f.left && !f.zeropad then Spaces(width, |rev|) else "";
    var post := if !f.left then "" else Spaces(width, |rev|);
    if |rev| < width { InkBlanks(width - |rev|); }
    InkConcat(pre + Reverse(rev), post);
    InkConcat(pre, Reverse(rev));
    InkReverse(rev);
  }
}
