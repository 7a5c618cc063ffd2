/**
 * The salary tree as a value: which node stands where, and what each node carries.
 * RankedTree.dfy keeps such a shape beside the linked nodes; here are the functions that the
 * operations compute on shapes, and what those functions mean for the in-order sequence.
 */
module TreeShape {
  import opened Staff

  class Tnode {
    var key: Employee
    var data: Employee
    var left: Tnode?
    var right: Tnode?
    var parent: Tnode?
    var height: int
    var treeNodes: int
    var sumGrades: int
    var tGrade: int

    constructor (key: Employee, data: Employee, grade: int)
      ensures this.key == key && this.data == data && tGrade == grade && sumGrades == grade
      ensures left == null && right == null && parent == null && height == 0 && treeNodes == 1
    {
      this.key, this.data := key, data;
      left, right, parent := null, null, null;
      height, treeNodes, sumGrades, tGrade := 0, 1, grade, grade;
    }
  }

  /** What one node carries, apart from its links and its caches. */
  datatype Entry = Entry(key: Employee, data: Employee, grade: int)

  datatype Shape = Nil | Bin(left: Shape, node: Tnode, entry: Entry, right: Shape)

  function Root(t: Shape): Tnode? {
    if t.Nil? then null else t.node
  }

  ghost function Nodes(t: Shape): set<Tnode> {
    if t.Nil? then {} else Nodes(t.left) + {t.node} + Nodes(t.right)
  }

  /** No node stands at two places. */
  ghost predicate Distinct(t: Shape) {
    t.Bin? ==>
      && Distinct(t.left) && Distinct(t.right)
      && t.node !in Nodes(t.left) && t.node !in Nodes(t.right)
      && Nodes(t.left) !! Nodes(t.right)
  }

  // ----- the quantities the nodes cache -----

  function Max(a: int, b: int): int {
    if a > b then a else b
  }

  /** A leaf has height 0, so the empty tree has height -1. */
  function Height(t: Shape): (h: int)
    ensures h >= -1 && (h == -1 <==> t.Nil?)
  {
    if t.Nil? then -1 else 1 + Max(Height(t.left), Height(t.right))
  }

  function Size(t: Shape): (n: nat)
    ensures n == 0 <==> t.Nil?
  {
    if t.Nil? then 0 else Size(t.left) + 1 + Size(t.right)
  }

  function Sum(t: Shape): (s: int)
    ensures t.Nil? ==> s == 0
  {
    if t.Nil? then 0 else Sum(t.left) + t.entry.grade + Sum(t.right)
  }

  function InOrder(t: Shape): seq<Entry> {
    if t.Nil? then [] else InOrder(t.left) + [t.entry] + InOrder(t.right)
  }

  function GradeSum(s: seq<Entry>): int {
    if s == [] then 0 else s[0].grade + GradeSum(s[1..])
  }

  function Factor(t: Shape): int {
    if t.Nil? then 0 else Height(t.left) - Height(t.right)
  }

  ghost predicate Avl(t: Shape) {
    t.Bin? ==> Avl(t.left) && Avl(t.right) && -1 <= Factor(t) <= 1
  }

  // ----- the transformations -----

  function RotateRight(t: Shape): Shape
    requires t.Bin? && t.left.Bin?
  {
    Bin(t.left.left, t.left.node, t.left.entry, Bin(t.left.right, t.node, t.entry, t.right))
  }

  function RotateLeft(t: Shape): Shape
    requires t.Bin? && t.right.Bin?
  {
    Bin(Bin(t.left, t.node, t.entry, t.right.left), t.right.node, t.right.entry, t.right.right)
  }

  function Balance(t: Shape): Shape {
    if Factor(t) > 1 then
      if Factor(t.left) < 0 then RotateRight(t.(left := RotateLeft(t.left))) else RotateRight(t)
    else if Factor(t) < -1 then
      if Factor(t.right) > 0 then RotateLeft(t.(right := RotateRight(t.right))) else RotateLeft(t)
    else t
  }

  function Leaf(n: Tnode, e: Entry): Shape {
    Bin(Nil, n, e, Nil)
  }

  function Insert(t: Shape, n: Tnode, e: Entry): (r: Shape)
    ensures r.Bin?
  {
    if t.Nil? then Leaf(n, e)
    else if Less(t.entry.key, e.key) then Balance(t.(right := Insert(t.right, n, e)))
    else Balance(t.(left := Insert(t.left, n, e)))
  }

  function Leftmost(t: Shape): (p: (Tnode, Entry))
    requires t.Bin?
  {
    if t.left.Nil? then (t.node, t.entry) else Leftmost(t.left)
  }

  /** The same shape with another node in the leftmost place. */
  function WithLeftmost(t: Shape, n: Tnode, e: Entry): (r: Shape)
    requires t.Bin?
    ensures r.Bin? && Size(r) == Size(t) && Height(r) == Height(t)
  {
    if t.left.Nil? then t.(node := n, entry := e)
    else t.(left := WithLeftmost(t.left, n, e))
  }

  /** The descent towards `key` ends at a node that carries it. */
  ghost predicate Finds(t: Shape, key: Employee) {
    t.Bin? &&
    if Less(t.entry.key, key) then Finds(t.right, key)
    else if Less(key, t.entry.key) then Finds(t.left, key)
    else true
  }

  function Delete(t: Shape, key: Employee): Shape
    decreases Size(t)
  {
    if t.Nil? then Nil
    else if Less(t.entry.key, key) then Balance(t.(right := Delete(t.right, key)))
    else if Less(key, t.entry.key) then Balance(t.(left := Delete(t.left, key)))
    else if t.left.Nil? then t.right
    else if t.right.Nil? then t.left
    else
      var (s, e) := Leftmost(t.right);
      Balance(Bin(t.left, s, e, Delete(WithLeftmost(t.right, t.node, t.entry), key)))
  }

  // ----- reference operations on the in-order sequence -----

  ghost predicate Sorted(s: seq<Entry>) {
    forall i, j :: 0 <= i < j < |s| ==> Less(s[i].key, s[j].key)
  }

  function InsertEntry(s: seq<Entry>, e: Entry): seq<Entry> {
    if s == [] then [e]
    else if Less(s[0].key, e.key) then [s[0]] + InsertEntry(s[1..], e)
    else [e] + s
  }

  function RemoveKey(s: seq<Entry>, key: Employee): seq<Entry> {
    if s == [] then []
    else if SamePlace(s[0].key, key) then s[1..]
    else [s[0]] + RemoveKey(s[1..], key)
  }
}
