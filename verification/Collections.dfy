/** Facts about finite sets and sequences that several modules need. */
module Collections {

  lemma AtMostOne(x: set<nat>)
    requires forall a, b | a in x && b in x :: a == b
    ensures |x| <= 1
  {
    if x != {} {
      var a :| a in x;
      assert x == {a};
    }
  }

  /** An id larger than all the issued ones. */
  ghost function Unused(issued: set<nat>): (id: nat)
    ensures forall i | i in issued :: i < id
  {
    if issued == {} then 0
    else
      var i :| i in issued;
      var rest := Unused(issued - {i});
      assert forall j | j in issued :: j == i || j in issued - {i};
      if i < rest then rest else i + 1
  }

  lemma {:induction false} SubsetSize<T>(a: set<T>, b: set<T>)
    requires a <= b
    ensures |a| <= |b|
  {
    if a != {} {
      var x :| x in a;
      SubsetSize(a - {x}, b - {x});
    }
  }

  lemma PrefixGrows<T>(s: seq<T>, i: nat)
    requires i < |s|
    ensures s[..i + 1] == s[..i] + [s[i]]
  {
  }
}
