/**
 * The node tree that `golang.org/x/net/html` builds: each node has a type,
 * its `Data` (tag name for elements, text for text nodes), its attributes
 * and its children. The `FirstChild`/`NextSibling` chain becomes the
 * sequence `children`.
 */
module Dom {

  datatype NodeType = ErrorNode | TextNode | DocumentNode | ElementNode | CommentNode | DoctypeNode | RawNode

  datatype Attribute = Attribute(key: string, val: string)

  datatype Node = Node(kind: NodeType, data: string, attrs: seq<Attribute>, children: seq<Node>)

  /** The nodes of the tree rooted at `n`, in depth-first pre-order. */
  function Preorder(n: Node): (ns: seq<Node>)
    ensures |ns| >= 1 && ns[0] == n
    decreases n, 1
  {
    [n] + PreorderAll(n.children)
  }

  /** The pre-order walks of a list of siblings, one after another. */
  function PreorderAll(cs: seq<Node>): (ns: seq<Node>)
    decreases cs, 0
  {
    if cs == [] then [] else Preorder(cs[0]) + PreorderAll(cs[1..])
  }

  /** The walk of a list of siblings splits where the list does. */
  lemma {:induction false} PreorderAllAppend(a: seq<Node>, b: seq<Node>)
    ensures PreorderAll(a + b) == PreorderAll(a) + PreorderAll(b)
  {
    if a == [] {
      assert a + b == b;
    } else {
      assert (a + b)[0] == a[0];
      assert (a + b)[1..] == a[1..] + b;
      PreorderAllAppend(a[1..], b);
    }
  }

  /** Walking the first `i + 1` children is walking the first `i`, then child `i`. */
  lemma PreorderAllStep(cs: seq<Node>, i: nat)
    requires i < |cs|
    ensures PreorderAll(cs[..i + 1]) == PreorderAll(cs[..i]) + Preorder(cs[i])
  {
    assert cs[..i + 1] == cs[..i] + [cs[i]];
    PreorderAllAppend(cs[..i], [cs[i]]);
    assert [cs[i]][1..] == [];
  }
}
