/**
 The B-tree of secret paths: insertion with pre-emptive splits.  Nodes are owned by their parent's
 vector, so a node is a value here; the tree is measured by its in-order sequence of paths.
 */
module BTreeIndex {
  import Arithmetic

  // ---------------------------------------------------------------------------
  // Order on paths

  /** Lexicographic order, as Rust compares strings. */
  predicate Less(a: string, b: string)
    decreases |a|
  {
    b != "" && (a == "" || a[0] < b[0] || (a[0] == b[0] && Less(a[1..], b[1..])))
  }

  lemma {:induction false} LessTotal(a: string, b: string)
    ensures Less(a, b) || Less(b, a) || a == b
    decreases |a|
  {
    if a != "" && b != "" && a[0] == b[0] {
      LessTotal(a[1..], b[1..]);
    }
  }

  lemma {:induction false} LessAsymmetric(a: string, b: string)
    ensures !(Less(a, b) && Less(b, a)) && !Less(a, a)
    decreases |a|
  {
    if a != "" { LessAsymmetric(a[1..], if b == "" then "" else b[1..]); }
  }

  lemma {:induction false} LessTransitive(a: string, b: string, c: string)
    requires Less(a, b) && Less(b, c)
    ensures Less(a, c)
    decreases |a|
  {
    if a != "" && a[0] == b[0] && b[0] == c[0] { LessTransitive(a[1..], b[1..], c[1..]); }
  }

  predicate Sorted(s: seq<string>) {
    forall i, j :: 0 <= i < j < |s| ==> Less(s[i], s[j])
  }

  predicate AllLess(s: seq<string>, k: string) {
    forall i :: 0 <= i < |s| ==> Less(s[i], k)
  }

  predicate AllGreater(s: seq<string>, k: string) {
    forall i :: 0 <= i < |s| ==> Less(k, s[i])
  }

  /** The sorted sequence with one more path. */
  function SortedInsert(s: seq<string>, k: string): seq<string> {
    if s == [] then [k]
    else if Less(k, s[0]) then [k] + s
    else [s[0]] + SortedInsert(s[1..], k)
  }

  lemma {:induction false} InsertRight(m: seq<string>, b: seq<string>, k: string)
    requires AllGreater(b, k)
    ensures SortedInsert(m + b, k) == SortedInsert(m, k) + b
    decreases |m|
  {
    if m == [] {
      assert m + b == b;
    } else if !Less(k, m[0]) {
      assert (m + b)[1..] == m[1..] + b;
      InsertRight(m[1..], b, k);
    }
  }

  /** Inserting between what is smaller and what is greater only touches the middle. */
  lemma {:induction false} InsertMiddle(a: seq<string>, m: seq<string>, b: seq<string>, k: string)
    requires AllLess(a, k) && AllGreater(b, k)
    ensures SortedInsert(a + m + b, k) == a + SortedInsert(m, k) + b
    decreases |a|
  {
    if a == [] {
      assert a + m + b == m + b;
      InsertRight(m, b, k);
    } else {
      LessAsymmetric(a[0], k);
      assert (a + m + b)[1..] == a[1..] + m + b;
      InsertMiddle(a[1..], m, b, k);
    }
  }

  lemma {:induction false} SortedInsertElements(s: seq<string>, k: string)
    ensures multiset(SortedInsert(s, k)) == multiset(s) + multiset{k}
    decreases |s|
  {
    if s != [] && !Less(k, s[0]) {
      SortedInsertElements(s[1..], k);
      assert s == [s[0]] + s[1..];
    }
  }

  /** The reference insertion keeps strict order and adds exactly the new path. */
  lemma {:induction false} SortedInsertSorted(s: seq<string>, k: string)
    requires Sorted(s) && k !in s
    ensures Sorted(SortedInsert(s, k))
    decreases |s|
  {
    if s != [] {
      LessTotal(s[0], k);
      if Less(k, s[0]) {
        forall i | 0 <= i < |s| ensures Less(k, s[i]) {
          if i > 0 { LessTransitive(k, s[0], s[i]); }
        }
      } else {
        var rest := SortedInsert(s[1..], k);
        SortedInsertSorted(s[1..], k);
        SortedInsertElements(s[1..], k);
        forall i | 0 <= i < |rest| ensures Less(s[0], rest[i]) {
          assert rest[i] in multiset(rest);
        }
      }
    }
  }

  /** A set of paths has one sorted listing, so the index does not depend on insertion order. */
  lemma {:induction false} SortedUnique(a: seq<string>, b: seq<string>)
    requires Sorted(a) && Sorted(b) && forall k :: k in a <==> k in b
    ensures a == b
    decreases |a|
  {
    if a == [] {
      HeadMember(b);
    } else {
      assert a[0] in b && b[0] in a;
      LessAsymmetric(a[0], b[0]);
      forall k ensures k in a[1..] <==> k in b[1..] {
        TailMember(a, k);
        TailMember(b, k);
      }
      SortedUnique(a[1..], b[1..]);
      assert a == [a[0]] + a[1..] && b == [b[0]] + b[1..];
    }
  }

  lemma HeadMember(s: seq<string>)
    ensures s == [] || exists k :: k in s
  {
    assert s == [] || s[0] in s;
  }

  lemma TailMember(s: seq<string>, k: string)
    requires Sorted(s) && s != []
    ensures k in s[1..] <==> k in s && k != s[0]
  {
    LessAsymmetric(s[0], s[0]);
  }

  // ---------------------------------------------------------------------------
  // Trees

  datatype Node = Node(leaf: bool, keys: seq<string>, children: seq<Node>)

  /** The paths of a subtree in order. */
  function Inorder(n: Node): seq<string>
    decreases n, 1
  {
    if n.leaf then n.keys else Interleave(n.children, n.keys)
  }

  function Interleave(cs: seq<Node>, ks: seq<string>): seq<string>
    decreases cs, 0
  {
    if cs == [] then []
    else if ks == [] then Inorder(cs[0])
    else Inorder(cs[0]) + [ks[0]] + Interleave(cs[1..], ks[1..])
  }

  /** Children each followed by their key. */
  function Left(cs: seq<Node>, ks: seq<string>): seq<string>
    requires |cs| == |ks|
  {
    if cs == [] then [] else Inorder(cs[0]) + [ks[0]] + Left(cs[1..], ks[1..])
  }

  /** Keys each followed by their child. */
  function Right(ks: seq<string>, cs: seq<Node>): seq<string>
    requires |cs| == |ks|
  {
    if cs == [] then [] else [ks[0]] + Inorder(cs[0]) + Right(ks[1..], cs[1..])
  }

  lemma {:induction false} InterleaveRight(cs: seq<Node>, ks: seq<string>)
    requires |cs| == |ks| + 1
    ensures Interleave(cs, ks) == Inorder(cs[0]) + Right(ks, cs[1..])
    decreases |ks|
  {
    if ks != [] {
      InterleaveRight(cs[1..], ks[1..]);
    }
  }

  /** The in-order sequence seen from child `i`. */
  lemma {:induction false} Focus(cs: seq<Node>, ks: seq<string>, i: nat)
    requires |cs| == |ks| + 1 && i < |cs|
    ensures Interleave(cs, ks) == Left(cs[..i], ks[..i]) + Inorder(cs[i]) + Right(ks[i..], cs[i + 1..])
    decreases i
  {
    hide Inorder;
    if i == 0 {
      InterleaveRight(cs, ks);
      assert ks[0..] == ks;
    } else {
      Focus(cs[1..], ks[1..], i - 1);
      assert cs[1..][..i - 1] == cs[..i][1..] && ks[1..][..i - 1] == ks[..i][1..];
      assert ks[1..][i - 1..] == ks[i..] && cs[1..][i..] == cs[i + 1..];
      assert Left(cs[..i], ks[..i]) == Inorder(cs[0]) + [ks[0]] + Left(cs[..i][1..], ks[..i][1..]);
    }
  }

  /** Cutting an internal node at key `j`. */
  lemma {:induction false} Cut(cs: seq<Node>, ks: seq<string>, j: nat)
    requires |cs| == |ks| + 1 && j < |ks|
    ensures Interleave(cs, ks) == Interleave(cs[..j + 1], ks[..j]) + [ks[j]] + Interleave(cs[j + 1..], ks[j + 1..])
    decreases j
  {
    if j == 0 {
      assert cs[..1][0] == cs[0] && ks[..0] == [];
    } else {
      Cut(cs[1..], ks[1..], j - 1);
      assert cs[1..][..j] == cs[..j + 1][1..] && ks[1..][..j - 1] == ks[..j][1..];
      assert cs[1..][j..] == cs[j + 1..] && ks[1..][j..] == ks[j + 1..];
      assert cs[..j + 1][0] == cs[0] && ks[..j][0] == ks[0];
    }
  }

  /** Height `h`, equal leaf depth, one more child than keys, occupancy `t - 1 .. 2t - 1` below the root. */
  predicate Tree(n: Node, t: nat, h: nat)
    decreases h
  {
    && |n.keys| <= 2 * t - 1
    && n.leaf == (h == 0)
    && (h == 0 ==> n.children == [])
    && (h > 0 ==> |n.children| == |n.keys| + 1
                  && forall i :: 0 <= i < |n.children| ==> Tree(n.children[i], t, h - 1) && |n.children[i].keys| >= t - 1)
  }

  // ---------------------------------------------------------------------------
  // Splitting a full child

  function LeftHalf(c: Node, t: nat): Node
    requires t >= 1 && |c.keys| == 2 * t - 1 && (c.leaf || |c.children| == 2 * t)
  {
    Node(c.leaf, c.keys[..t - 1], if c.leaf then c.children else c.children[..t])
  }

  function RightHalf(c: Node, t: nat): Node
    requires t >= 1 && |c.keys| == 2 * t - 1 && (c.leaf || |c.children| == 2 * t)
  {
    Node(c.leaf, c.keys[t..], if c.leaf then [] else c.children[t..])
  }

  /** The parent after its full child `i` was split around the middle key. */
  function Split(parent: Node, t: nat, i: nat): Node
    requires t >= 1 && i < |parent.children| && i <= |parent.keys|
    requires var c := parent.children[i]; |c.keys| == 2 * t - 1 && (c.leaf || |c.children| == 2 * t)
  {
    var c := parent.children[i];
    Node(parent.leaf,
         parent.keys[..i] + [c.keys[t - 1]] + parent.keys[i..],
         parent.children[..i] + [LeftHalf(c, t), RightHalf(c, t)] + parent.children[i + 1..])
  }

  lemma HalvesInorder(c: Node, t: nat)
    requires t >= 1 && |c.keys| == 2 * t - 1 && (c.leaf || |c.children| == 2 * t)
    ensures Inorder(c) == Inorder(LeftHalf(c, t)) + [c.keys[t - 1]] + Inorder(RightHalf(c, t))
  {
    if !c.leaf {
      Cut(c.children, c.keys, t - 1);
    }
  }

  lemma RightCons(k: string, ks: seq<string>, c: Node, cs: seq<Node>)
    requires |cs| == |ks|
    ensures Right([k] + ks, [c] + cs) == [k] + Inorder(c) + Right(ks, cs)
  {
  }

  lemma NodeFocus(n: Node, i: nat)
    requires !n.leaf && |n.children| == |n.keys| + 1 && i < |n.children|
    ensures Inorder(n) == Left(n.children[..i], n.keys[..i]) + Inorder(n.children[i]) + Right(n.keys[i..], n.children[i + 1..])
  {
    Focus(n.children, n.keys, i);
  }

  /** A split moves no path. */
  lemma SplitInorder(parent: Node, t: nat, i: nat)
    requires t >= 1 && !parent.leaf && |parent.children| == |parent.keys| + 1 && i < |parent.children|
    requires var c := parent.children[i]; |c.keys| == 2 * t - 1 && (c.leaf || |c.children| == 2 * t)
    ensures Inorder(Split(parent, t, i)) == Inorder(parent)
  {
    hide Inorder, Left, Right, LeftHalf, RightHalf;
    var c, cs, ks := parent.children[i], parent.children, parent.keys;
    var l, r, mid := LeftHalf(c, t), RightHalf(c, t), c.keys[t - 1];
    var s := Split(parent, t, i);
    assert s.children[..i] == cs[..i] && s.keys[..i] == ks[..i] && s.children[i] == l;
    assert s.keys[i..] == [mid] + ks[i..] && s.children[i + 1..] == [r] + cs[i + 1..];
    var before, after := Left(cs[..i], ks[..i]), Right(ks[i..], cs[i + 1..]);
    NodeFocus(parent, i);
    NodeFocus(s, i);
    RightCons(mid, ks[i..], r, cs[i + 1..]);
    HalvesInorder(c, t);
    assert before + Inorder(l) + ([mid] + Inorder(r) + after) == before + (Inorder(l) + [mid] + Inorder(r)) + after;
  }

  lemma SplitTree(parent: Node, t: nat, h: nat, i: nat)
    requires t >= 1 && h >= 1 && Tree(parent, t, h) && |parent.keys| < 2 * t - 1 && i < |parent.children|
    requires |parent.children[i].keys| == 2 * t - 1
    ensures parent.children[i].leaf || |parent.children[i].children| == 2 * t
    ensures Tree(Split(parent, t, i), t, h)
    ensures |Split(parent, t, i).keys| == |parent.keys| + 1
  {
    var s := Split(parent, t, i);
    forall j | 0 <= j < |s.children| ensures Tree(s.children[j], t, h - 1) && |s.children[j].keys| >= t - 1 {
      if j < i { assert s.children[j] == parent.children[j]; }
      if j > i + 1 { assert s.children[j] == parent.children[j - 1]; }
    }
  }

  /** Moves everything from position `t` on to a new vector, one element at a time. */
  method MoveTail<T>(s: seq<T>, t: nat, n: nat) returns (kept: seq<T>, moved: seq<T>)
    requires t + n == |s|
    ensures kept == s[..t] && moved == s[t..]
  {
    kept, moved := s, [];
    for j := 0 to n
      invariant kept == s[..t] + s[t + j..]
      invariant moved == s[t..t + j]
    {
      assert kept[t] == s[t + j];
      assert kept[t + 1..] == s[t + j + 1..];
      moved := moved + [kept[t]];
      kept := kept[..t] + kept[t + 1..];
    }
  }

  /** The split as the source performs it: the upper keys and children move, then the middle key goes up. */
  method SplitChild(t: nat, parent: Node, i: nat) returns (r: Node)
    requires t >= 1 && i < |parent.children| && i <= |parent.keys|
    requires var c := parent.children[i]; |c.keys| == 2 * t - 1 && (c.leaf || |c.children| == 2 * t)
    ensures r == Split(parent, t, i)
  {
    var c := parent.children[i];
    var keys, sibKeys := MoveTail(c.keys, t, t - 1);
    var kids, sibKids: seq<Node> := c.children, [];
    if !c.leaf {
      kids, sibKids := MoveTail(c.children, t, t);
    }
    var middle := keys[t - 1];
    keys := keys[..t - 1];
    assert keys == c.keys[..t - 1];
    var child, sibling := Node(c.leaf, keys, kids), Node(c.leaf, sibKeys, sibKids);
    var children := parent.children[i := child];
    children := children[..i + 1] + [sibling] + children[i + 1..];
    r := Node(parent.leaf, parent.keys[..i] + [middle] + parent.keys[i..], children);
  }

  // ---------------------------------------------------------------------------
  // Going down the tree

  /** What lies left of child `i` is below `k` and what lies right of it is above. */
  lemma Bracketed(n: Node, i: nat, k: string)
    requires !n.leaf && |n.children| == |n.keys| + 1 && i < |n.children| && Sorted(Inorder(n))
    requires i > 0 ==> Less(n.keys[i - 1], k)
    requires i < |n.keys| ==> Less(k, n.keys[i])
    ensures AllLess(Left(n.children[..i], n.keys[..i]), k)
    ensures AllGreater(Right(n.keys[i..], n.children[i + 1..]), k)
    ensures Sorted(Inorder(n.children[i]))
  {
    hide Less, Sorted, AllLess, AllGreater;
    var a, m, b := Left(n.children[..i], n.keys[..i]), Inorder(n.children[i]), Right(n.keys[i..], n.children[i + 1..]);
    Focus(n.children, n.keys, i);
    LeftEnds(n.children[..i], n.keys[..i]);
    BracketParts(a, m, b, k);
  }

  lemma BracketParts(a: seq<string>, m: seq<string>, b: seq<string>, k: string)
    requires Sorted(a + m + b)
    requires a != [] ==> Less(a[|a| - 1], k)
    requires b != [] ==> Less(k, b[0])
    ensures AllLess(a, k) && AllGreater(b, k) && Sorted(m)
  {
    var s := a + m + b;
    forall j | 0 <= j < |a| ensures Less(a[j], k) {
      assert a[j] == s[j] && a[|a| - 1] == s[|a| - 1];
      if j < |a| - 1 { LessTransitive(a[j], a[|a| - 1], k); }
    }
    forall j | 0 <= j < |b| ensures Less(k, b[j]) {
      assert b[j] == s[|a| + |m| + j] && b[0] == s[|a| + |m|];
      if j > 0 { LessTransitive(k, b[0], b[j]); }
    }
    forall p, q | 0 <= p < q < |m| ensures Less(m[p], m[q]) {
      assert m[p] == s[|a| + p] && m[q] == s[|a| + q];
    }
  }

  lemma {:induction false} LeftEnds(cs: seq<Node>, ks: seq<string>)
    requires |cs| == |ks|
    ensures cs == [] ==> Left(cs, ks) == []
    ensures cs != [] ==> Left(cs, ks) != [] && Left(cs, ks)[|Left(cs, ks)| - 1] == ks[|ks| - 1]
    decreases |cs|
  {
    if |cs| > 0 { LeftEnds(cs[1..], ks[1..]); }
  }

  lemma NotBetween(s: seq<string>, k: string)
    requires AllLess(s, k) || AllGreater(s, k)
    ensures k !in s
  {
    LessAsymmetric(k, k);
  }

  /** Search may descend into the bracketing child only. */
  lemma MemberDescends(n: Node, i: nat, k: string)
    requires !n.leaf && |n.children| == |n.keys| + 1 && i < |n.children| && Sorted(Inorder(n))
    requires i > 0 ==> Less(n.keys[i - 1], k)
    requires i < |n.keys| ==> Less(k, n.keys[i])
    ensures k in Inorder(n) <==> k in Inorder(n.children[i])
    ensures Sorted(Inorder(n.children[i]))
  {
    Bracketed(n, i, k);
    Focus(n.children, n.keys, i);
    NotBetween(Left(n.children[..i], n.keys[..i]), k);
    NotBetween(Right(n.keys[i..], n.children[i + 1..]), k);
  }

  lemma {:induction false} KeysInInorder(cs: seq<Node>, ks: seq<string>, i: nat)
    requires |cs| == |ks| + 1 && i < |ks|
    ensures ks[i] in Interleave(cs, ks)
  {
    Cut(cs, ks, i);
  }

  /** Inserting into the bracketing child is inserting into the node. */
  lemma InsertDescends(n: Node, i: nat, k: string, c: Node)
    requires !n.leaf && |n.children| == |n.keys| + 1 && i < |n.children| && Sorted(Inorder(n))
    requires i > 0 ==> Less(n.keys[i - 1], k)
    requires i < |n.keys| ==> Less(k, n.keys[i])
    requires Inorder(c) == SortedInsert(Inorder(n.children[i]), k)
    ensures Inorder(n.(children := n.children[i := c])) == SortedInsert(Inorder(n), k)
  {
    var r := n.(children := n.children[i := c]);
    Bracketed(n, i, k);
    Focus(n.children, n.keys, i);
    Focus(r.children, r.keys, i);
    assert r.children[..i] == n.children[..i] && r.children[i + 1..] == n.children[i + 1..];
    InsertMiddle(Left(n.children[..i], n.keys[..i]), Inorder(n.children[i]), Right(n.keys[i..], n.children[i + 1..]), k);
  }

  // ---------------------------------------------------------------------------
  // The operations

  lemma LeafMember(ks: seq<string>, i: nat, k: string)
    requires Sorted(ks) && i <= |ks|
    requires i > 0 ==> Less(ks[i - 1], k)
    requires i < |ks| ==> Less(k, ks[i])
    ensures AllLess(ks[..i], k) && AllGreater(ks[i..], k) && k !in ks
  {
    forall j | 0 <= j < i ensures Less(ks[j], k) {
      if j < i - 1 { LessTransitive(ks[j], ks[i - 1], k); }
    }
    forall j | i <= j < |ks| ensures Less(k, ks[j]) {
      if j > i { LessTransitive(k, ks[i], ks[j]); }
    }
    LessAsymmetric(k, k);
  }

  /** Membership by one walk down the tree. */
  method ContainsPath(node: Node, k: string, ghost t: nat, ghost h: nat) returns (found: bool)
    requires Tree(node, t, h) && Sorted(Inorder(node))
    ensures found <==> k in Inorder(node)
    decreases h
  {
    var i := 0;
    while i < |node.keys| && Less(node.keys[i], k)
      invariant 0 <= i <= |node.keys|
      invariant i > 0 ==> Less(node.keys[i - 1], k)
    {
      i := i + 1;
    }
    if i < |node.keys| && node.keys[i] == k {
      if !node.leaf { KeysInInorder(node.children, node.keys, i); }
      return true;
    }
    if i < |node.keys| { LessTotal(node.keys[i], k); }
    if node.leaf {
      LeafMember(node.keys, i, k);
      return false;
    }
    MemberDescends(node, i, k);
    found := ContainsPath(node.children[i], k, t, h - 1);
  }

  lemma InsertAt(ks: seq<string>, i: nat, k: string)
    requires Sorted(ks) && i <= |ks|
    requires i > 0 ==> Less(ks[i - 1], k)
    requires i < |ks| ==> Less(k, ks[i])
    ensures SortedInsert(ks, k) == ks[..i] + [k] + ks[i..]
  {
    LeafMember(ks, i, k);
    assert ks == ks[..i] + [] + ks[i..];
    InsertMiddle(ks[..i], [], ks[i..], k);
  }

  /** Insertion into a leaf, shifting the greater keys up one place. */
  method InsertIntoKeys(ks: seq<string>, k: string) returns (r: seq<string>)
    requires Sorted(ks) && k !in ks
    ensures r == SortedInsert(ks, k)
  {
    hide SortedInsert, Less;
    r := ks + [""];
    var i := |ks| - 1;
    while i >= 0 && Less(k, r[i])
      invariant -1 <= i < |ks| && |r| == |ks| + 1
      invariant forall j :: 0 <= j <= i ==> r[j] == ks[j]
      invariant forall j :: i + 1 < j < |r| ==> r[j] == ks[j - 1]
      invariant i + 1 < |ks| ==> Less(k, ks[i + 1])
    {
      r := r[i + 1 := r[i]];
      i := i - 1;
    }
    r := r[i + 1 := k];
    if i >= 0 { LessTotal(k, ks[i]); }
    InsertAt(ks, i + 1, k);
    assert r == ks[..i + 1] + [k] + ks[i + 1..];
  }

  /** The child to descend into: the last one whose left key is not above `k`. */
  method ChildIndex(ks: seq<string>, k: string) returns (i: nat)
    requires k !in ks
    ensures i <= |ks|
    ensures i > 0 ==> Less(ks[i - 1], k)
    ensures i < |ks| ==> Less(k, ks[i])
  {
    var j := |ks| - 1;
    while j >= 0 && Less(k, ks[j])
      invariant -1 <= j < |ks|
      invariant j + 1 < |ks| ==> Less(k, ks[j + 1])
    {
      j := j - 1;
    }
    i := j + 1;
    if i > 0 { LessTotal(k, ks[i - 1]); }
  }

  lemma KeyNotIn(n: Node, k: string)
    requires !n.leaf && |n.children| == |n.keys| + 1 && k !in Inorder(n)
    ensures k !in n.keys
  {
    forall i | 0 <= i < |n.keys| ensures n.keys[i] != k {
      KeysInInorder(n.children, n.keys, i);
    }
  }

  /** After splitting child `i`, the new path belongs left or right of the key that moved up. */
  lemma SplitBrackets(node: Node, t: nat, h: nat, i: nat, k: string)
    requires t >= 2 && h >= 1 && Tree(node, t, h) && |node.keys| < 2 * t - 1 && i < |node.children|
    requires |node.children[i].keys| == 2 * t - 1 && k !in Inorder(node)
    requires i > 0 ==> Less(node.keys[i - 1], k)
    requires i < |node.keys| ==> Less(k, node.keys[i])
    ensures node.children[i].leaf || |node.children[i].children| == 2 * t
    ensures var n := Split(node, t, i);
            var j := if Less(n.keys[i], k) then i + 1 else i;
            && Tree(n, t, h) && |n.keys| == |node.keys| + 1 && Inorder(n) == Inorder(node)
            && |n.children[j].keys| < 2 * t - 1
            && (j > 0 ==> Less(n.keys[j - 1], k))
            && (j < |n.keys| ==> Less(k, n.keys[j]))
  {
    hide Split, Inorder, Less;
    SplitTree(node, t, h, i);
    SplitInorder(node, t, i);
    SplitShape(node, t, i);
    var n := Split(node, t, i);
    KeyNotIn(n, k);
    LessTotal(n.keys[i], k);
  }

  lemma SplitShape(parent: Node, t: nat, i: nat)
    requires t >= 1 && |parent.children| == |parent.keys| + 1 && i < |parent.children|
    requires var c := parent.children[i]; |c.keys| == 2 * t - 1 && (c.leaf || |c.children| == 2 * t)
    ensures var n := Split(parent, t, i);
            && n.leaf == parent.leaf && |n.keys| == |parent.keys| + 1 && |n.children| == |n.keys| + 1
            && (i > 0 ==> n.keys[i - 1] == parent.keys[i - 1])
            && (i < |parent.keys| ==> n.keys[i + 1] == parent.keys[i])
            && |n.children[i].keys| == t - 1 && |n.children[i + 1].keys| == t - 1
  {
  }

  /** Insertion into a node that is not full, splitting full children on the way down. */
  method InsertNonFull(t: nat, node: Node, k: string, ghost h: nat) returns (r: Node)
    requires t >= 2 && Tree(node, t, h) && |node.keys| < 2 * t - 1
    requires Sorted(Inorder(node)) && k !in Inorder(node)
    ensures Tree(r, t, h) && |r.keys| >= |node.keys|
    ensures Inorder(r) == SortedInsert(Inorder(node), k)
    decreases h
  {
    hide Split, Interleave, SortedInsert, Sorted;
    if node.leaf {
      var keys := InsertIntoKeys(node.keys, k);
      SortedInsertElements(node.keys, k);
      assert |keys| == |multiset(keys)| == |multiset(node.keys)| + 1;
      return Node(true, keys, []);
    }
    KeyNotIn(node, k);
    var i := ChildIndex(node.keys, k);
    var n := node;
    if |node.children[i].keys| == 2 * t - 1 {
      SplitBrackets(node, t, h, i, k);
      n := SplitChild(t, node, i);
      if Less(n.keys[i], k) {
        i := i + 1;
      }
    }
    MemberDescends(n, i, k);
    var c := InsertNonFull(t, n.children[i], k, h - 1);
    InsertDescends(n, i, k, c);
    r := n.(children := n.children[i := c]);
  }

  /** All paths below a node, appended to the output vector in order. */
  method CollectPaths(node: Node, out: seq<string>, ghost t: nat, ghost h: nat) returns (r: seq<string>)
    requires Tree(node, t, h)
    ensures r == out + Inorder(node)
    decreases h
  {
    hide Interleave, Left, Right;
    r := out;
    if node.leaf {
      for i := 0 to |node.keys|
        invariant r == out + node.keys[..i]
      {
        r := r + [node.keys[i]];
      }
      return;
    }
    LeftEnds(node.children[..0], node.keys[..0]);
    for i := 0 to |node.keys|
      invariant r == out + Left(node.children[..i], node.keys[..i])
    {
      r := CollectPaths(node.children[i], r, t, h - 1);
      r := r + [node.keys[i]];
      LeftSnoc(node.children[..i], node.keys[..i], node.children[i], node.keys[i]);
      assert node.children[..i + 1] == node.children[..i] + [node.children[i]];
      assert node.keys[..i + 1] == node.keys[..i] + [node.keys[i]];
    }
    FocusLast(node.children, node.keys);
    r := CollectPaths(node.children[|node.children| - 1], r, t, h - 1);
  }

  lemma FocusLast(cs: seq<Node>, ks: seq<string>)
    requires |cs| == |ks| + 1
    ensures Interleave(cs, ks) == Left(cs[..|ks|], ks[..|ks|]) + Inorder(cs[|ks|])
  {
    Focus(cs, ks, |ks|);
  }

  lemma {:induction false} LeftSnoc(cs: seq<Node>, ks: seq<string>, c: Node, k: string)
    requires |cs| == |ks|
    ensures Left(cs + [c], ks + [k]) == Left(cs, ks) + Inorder(c) + [k]
    decreases |cs|
  {
    if cs == [] {
    } else {
      assert (cs + [c])[1..] == cs[1..] + [c] && (ks + [k])[1..] == ks[1..] + [k];
      LeftSnoc(cs[1..], ks[1..], c, k);
    }
  }

  // ---------------------------------------------------------------------------
  // Height

  lemma {:induction false} InterleaveSize(cs: seq<Node>, ks: seq<string>, least: nat)
    requires |cs| == |ks| + 1
    requires forall i :: 0 <= i < |cs| ==> |Inorder(cs[i])| + 1 >= least
    ensures |Interleave(cs, ks)| + 1 >= |cs| * least
    decreases |cs|
  {
    if ks != [] {
      InterleaveSize(cs[1..], ks[1..], least);
    }
  }

  /** A node with `m` keys at height `h` has at least `(m + 1) * t^h - 1` paths below it. */
  lemma {:induction false} NodeSize(n: Node, t: nat, h: nat)
    requires t >= 1 && Tree(n, t, h)
    ensures |Inorder(n)| + 1 >= (|n.keys| + 1) * Arithmetic.Pow(t, h)
    decreases h
  {
    if h > 0 {
      forall i | 0 <= i < |n.children| ensures |Inorder(n.children[i])| + 1 >= Arithmetic.Pow(t, h) {
        NodeSize(n.children[i], t, h - 1);
        Arithmetic.MulMono(t, |n.children[i].keys| + 1, Arithmetic.Pow(t, h - 1));
      }
      InterleaveSize(n.children, n.keys, Arithmetic.Pow(t, h));
    }
  }

  // ---------------------------------------------------------------------------
  // The index

  /** A full root becomes the two children of a new root with one key. */
  lemma GrowRoot(root: Node, t: nat, h: nat)
    requires t >= 2 && Tree(root, t, h) && |root.keys| == 2 * t - 1
    ensures root.leaf || |root.children| == 2 * t
    ensures var top := Split(Node(false, [], [root]), t, 0);
            Tree(top, t, h + 1) && |top.keys| == 1 && Inorder(top) == Inorder(root)
  {
    hide Split;
    var top := Node(false, [], [root]);
    assert Inorder(top) == Inorder(root);
    SplitTree(top, t, h + 1, 0);
    SplitInorder(top, t, 0);
  }

  class BTreeIndex {
    const minDegree: nat
    var root: Node
    ghost var height: nat

    ghost predicate Valid()
      reads this
    {
      && minDegree >= 2
      && Tree(root, minDegree, height)
      && (height > 0 ==> |root.keys| >= 1)
      && Sorted(Inorder(root))
    }

    /** The indexed paths in order. */
    ghost function Paths(): seq<string>
      reads this
    {
      Inorder(root)
    }

    constructor (degree: nat)
      requires degree >= 2
      ensures Valid() && Paths() == [] && minDegree == degree
    {
      minDegree := degree;
      root := Node(true, [], []);
      height := 0;
    }

    method ValidatePath(path: string) returns (found: bool)
      requires Valid()
      ensures found <==> path in Paths()
    {
      found := ContainsPath(root, path, minDegree, height);
    }

    /** Indexes a path; a path already there is left alone. */
    method InsertPath(path: string) returns (ok: bool)
      requires Valid()
      modifies this
      ensures Valid() && ok
      ensures Paths() == if path in old(Paths()) then old(Paths()) else SortedInsert(old(Paths()), path)
    {
      hide SortedInsert, Sorted, Split, Inorder, Less;
      assert |root.keys| <= 2 * minDegree - 1;
      hide Tree;
      var found := ValidatePath(path);
      if found {
        return true;
      }
      SortedInsertSorted(Paths(), path);
      if |root.keys| == 2 * minDegree - 1 {
        var top := Node(false, [], [root]);
        GrowRoot(root, minDegree, height);
        top := SplitChild(minDegree, top, 0);
        root := InsertNonFull(minDegree, top, path, height + 1);
        height := height + 1;
      } else {
        root := InsertNonFull(minDegree, root, path, height);
      }
      ok := true;
    }

    method GetAllPaths() returns (paths: seq<string>)
      requires Valid()
      ensures paths == Paths()
    {
      paths := CollectPaths(root, [], minDegree, height);
    }

    /** A non-empty tree of height `h` holds at least `2 * t^h - 1` paths. */
    lemma HeightBound()
      requires Valid() && Paths() != []
      ensures |Paths()| >= 2 * Arithmetic.Pow(minDegree, height) - 1
    {
      NodeSize(root, minDegree, height);
      Arithmetic.MulMono(2, |root.keys| + 1, Arithmetic.Pow(minDegree, height));
    }
  }
}
