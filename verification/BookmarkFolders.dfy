/** chrome/browser/bookmarks/bookmarks_utils.cc: the folders at the top level of the bookmarks. */
module BookmarkFolders {

  class BookmarkNode {
    var parent: BookmarkNode?
    var children: seq<BookmarkNode>
    var isFolder: bool
    var isVisible: bool

    constructor (parent: BookmarkNode?, isFolder: bool, isVisible: bool)
      ensures this.parent == parent && children == []
      ensures this.isFolder == isFolder && this.isVisible == isVisible
    {
      this.parent, children, this.isFolder, this.isVisible := parent, [], isFolder, isVisible;
    }
  }

  predicate NoDuplicates<T(==)>(s: seq<T>) {
    forall i, j :: 0 <= i < j < |s| ==> s[i] != s[j]
  }

  lemma NoDuplicatesInConcat<T>(a: seq<T>, b: seq<T>)
    requires NoDuplicates(a) && NoDuplicates(b) && forall x :: x in a ==> x !in b
    ensures NoDuplicates(a + b)
  {
    forall i, j | 0 <= i < j < |a + b| ensures (a + b)[i] != (a + b)[j] {
      if i < |a| <= j {
        assert a[i] in a && b[j - |a|] in b;
      }
    }
  }

  /** The visible folders among some nodes, in the same order. */
  ghost function VisibleFolders(nodes: seq<BookmarkNode>): (folders: seq<BookmarkNode>)
    ensures forall n :: n in folders ==> n in nodes
    reads nodes
  {
    if nodes == [] then []
    else
      var before, last := VisibleFolders(nodes[..|nodes| - 1]), nodes[|nodes| - 1];
      if last.isFolder && last.isVisible then before + [last] else before
  }

  lemma {:induction false} VisibleFoldersExact(nodes: seq<BookmarkNode>)
    ensures forall n :: n in VisibleFolders(nodes) <==> n in nodes && n.isFolder && n.isVisible
    ensures NoDuplicates(nodes) ==> NoDuplicates(VisibleFolders(nodes))
  {
    if nodes != [] {
      VisibleFoldersExact(nodes[..|nodes| - 1]);
      assert nodes == nodes[..|nodes| - 1] + [nodes[|nodes| - 1]];
    }
  }

  class BookmarkModel {
    var rootNode: BookmarkNode
    var mobileNode: BookmarkNode
    var bookmarkBarNode: BookmarkNode
    var otherNode: BookmarkNode
    /** The nodes of the tree, with their distance from the root. */
    ghost var depth: map<BookmarkNode, nat>

    ghost predicate Valid()
      reads this, depth.Keys
    {
      && rootNode in depth && rootNode.parent == null
      && (forall p :: p in Permanent() ==> p in depth && p.parent == rootNode)
      && NoDuplicates(Permanent())
      && (forall n :: n in depth ==> LinksAgree(n))
    }

    /** Parent and child links of a node agree; no node is twice among the children. */
    ghost predicate LinksAgree(n: BookmarkNode)
      requires n in depth
      reads this, depth.Keys
    {
      && (n.parent == null ==> n == rootNode && depth[n] == 0)
      && (n.parent != null ==>
        n.parent in depth && n in n.parent.children && depth[n] == depth[n.parent] + 1)
      && NoDuplicates(n.children)
      && forall c :: c in n.children ==> c in depth && c.parent == n
    }

    function Permanent(): seq<BookmarkNode>
      reads this
    {
      [mobileNode, bookmarkBarNode, otherNode]
    }

    ghost predicate IsRootLevelFolder(n: BookmarkNode)
      reads this, n
    {
      n.isFolder && n.isVisible && n.parent != null && n.parent in Permanent()
    }

    /** A node, its parent and so on up to the root. */
    ghost function Ancestry(n: BookmarkNode): (nodes: seq<BookmarkNode>)
      requires Valid() && n in depth
      ensures n in nodes && forall m :: m in nodes ==> m in depth
      reads this, depth.Keys
      decreases depth[n]
    {
      assert LinksAgree(n);
      if n.parent == null then [n] else [n] + Ancestry(n.parent)
    }

    /** `top` is the only root-level folder that is `node` or above it; null if there is none. */
    ghost predicate IsAnswer(node: BookmarkNode, top: BookmarkNode?)
      requires Valid() && node in depth
      reads this, depth.Keys
    {
      && (top != null ==> top in Ancestry(node) && IsRootLevelFolder(top))
      && forall n :: n in Ancestry(node) ==> (IsRootLevelFolder(n) ==> n == top)
    }

    /** The model's tree without any bookmarks. */
    constructor (mobileVisible: bool, barVisible: bool, otherVisible: bool)
      ensures Valid()
    {
      var root := new BookmarkNode(null, true, true);
      var mobile := new BookmarkNode(root, true, mobileVisible);
      var bar := new BookmarkNode(root, true, barVisible);
      var other := new BookmarkNode(root, true, otherVisible);
      root.children := [bar, other, mobile];
      rootNode, mobileNode, bookmarkBarNode, otherNode := root, mobile, bar, other;
      depth := map[root := 0, mobile := 1, bar := 1, other := 1];
    }

    // ---------- The functions ----------

    method PrimaryPermanentNodes() returns (nodes: seq<BookmarkNode>)
      ensures nodes == Permanent()
    {
      nodes := [];
      nodes := nodes + [mobileNode];
      nodes := nodes + [bookmarkBarNode];
      nodes := nodes + [otherNode];
    }

    method RootLevelFolders() returns (folders: seq<BookmarkNode>)
      requires Valid()
      ensures folders == VisibleFolders(mobileNode.children)
        + VisibleFolders(bookmarkBarNode.children) + VisibleFolders(otherNode.children)
      ensures NoDuplicates(folders)
      ensures forall n :: n in folders <==> n in depth && IsRootLevelFolder(n)
    {
      folders := [];
      var parents := PrimaryPermanentNodes();
      for p := 0 to |parents|
        invariant folders == FoldersUnder(p)
      {
        var parent := parents[p];
        var childCount := |parent.children|;
        for i := 0 to childCount
          invariant folders == FoldersUnder(p) + VisibleFolders(parent.children[..i])
        {
          var node := parent.children[i];
          assert parent.children[..i + 1][..i] == parent.children[..i];
          if node.isFolder && node.isVisible {
            folders := folders + [node];
          }
        }
        assert parent.children[..childCount] == parent.children;
      }
      RootLevelFoldersExact();
    }

    /** The folders under the first `count` permanent nodes. */
    ghost function FoldersUnder(count: nat): seq<BookmarkNode>
      requires Valid() && count <= 3
      reads this, depth.Keys
    {
      var mobile, bar, other := FoldersOf(mobileNode), FoldersOf(bookmarkBarNode), FoldersOf(otherNode);
      if count == 0 then []
      else if count == 1 then mobile
      else if count == 2 then mobile + bar
      else mobile + bar + other
    }

    ghost function FoldersOf(parent: BookmarkNode): (folders: seq<BookmarkNode>)
      requires Valid() && parent in depth
      ensures forall n :: n in folders ==> n.parent == parent
      reads this, depth.Keys
    {
      assert LinksAgree(parent);
      VisibleFolders(parent.children)
    }

    lemma FoldersOfExact(parent: BookmarkNode)
      requires Valid() && parent in depth
      ensures NoDuplicates(FoldersOf(parent))
      ensures forall n ::
        n in FoldersOf(parent) <==> n in depth && n.parent == parent && n.isFolder && n.isVisible
    {
      assert LinksAgree(parent);
      VisibleFoldersExact(parent.children);
      forall n | n in depth && n.parent == parent ensures n in parent.children {
        assert LinksAgree(n);
      }
    }

    lemma RootLevelFoldersExact()
      requires Valid()
      ensures NoDuplicates(FoldersUnder(3))
      ensures forall n :: n in FoldersUnder(3) <==> n in depth && IsRootLevelFolder(n)
    {
      FoldersOfExact(mobileNode);
      FoldersOfExact(bookmarkBarNode);
      FoldersOfExact(otherNode);
      assert mobileNode != bookmarkBarNode && mobileNode != otherNode && bookmarkBarNode != otherNode by {
        assert Permanent()[0] != Permanent()[1] && Permanent()[0] != Permanent()[2] && Permanent()[1] != Permanent()[2];
      }
      NoDuplicatesInConcat(FoldersOf(mobileNode), FoldersOf(bookmarkBarNode));
      NoDuplicatesInConcat(FoldersOf(mobileNode) + FoldersOf(bookmarkBarNode), FoldersOf(otherNode));
    }

    method RootLevelFolderForNode(node: BookmarkNode) returns (top: BookmarkNode?)
      requires Valid() && node in depth
      ensures IsAnswer(node, top)
    {
      var rootFolders := RootLevelFolders();
      top := node;
      while top != null && top !in rootFolders
        invariant top == null ==> IsAnswer(node, null)
        invariant top != null ==> top in depth && forall t :: IsAnswer(top, t) <==> IsAnswer(node, t)
        decreases if top == null then 0 else depth[top] + 1
      {
        AnswerOfParent(top);
        assert LinksAgree(top);
        top := top.parent;
      }
      if top != null {
        FolderIsItsAnswer(top);
      }
    }

    /** What is not itself a root-level folder has the answer of its parent, or none. */
    lemma AnswerOfParent(n: BookmarkNode)
      requires Valid() && n in depth && !IsRootLevelFolder(n)
      ensures n.parent == null ==> IsAnswer(n, null)
      ensures n.parent != null ==>
        n.parent in depth && forall t :: IsAnswer(n, t) <==> IsAnswer(n.parent, t)
    {
      assert LinksAgree(n);
      if n.parent != null {
        assert Ancestry(n) == [n] + Ancestry(n.parent);
      }
    }

    /** No root-level folder is inside another. */
    lemma FolderIsItsAnswer(top: BookmarkNode)
      requires Valid() && top in depth && IsRootLevelFolder(top)
      ensures IsAnswer(top, top)
    {
      assert LinksAgree(top) && LinksAgree(top.parent) && LinksAgree(rootNode);
      assert Ancestry(rootNode) == [rootNode];
      assert Ancestry(top.parent) == [top.parent, rootNode];
      assert Ancestry(top) == [top] + Ancestry(top.parent);
      assert rootNode !in Permanent();
    }

    /** All that is in a root-level folder has it for an answer, and no other one. */
    lemma {:induction false} FolderIsAnswerOfItsSubtree(n: BookmarkNode, top: BookmarkNode)
      requires Valid() && n in depth && top in Ancestry(n) && IsRootLevelFolder(top)
      ensures forall t :: IsAnswer(n, t) <==> t == top
      decreases depth[n]
    {
      assert LinksAgree(n);
      if IsRootLevelFolder(n) {
        FolderIsItsAnswer(n);
      } else {
        AnswerOfParent(n);
        FolderIsAnswerOfItsSubtree(n.parent, top);
      }
    }
  }
}
