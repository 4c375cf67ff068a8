/**
 * The rendering backend the marker puts its instances into (`Inkscape::DrawingItem` and
 * `DrawingGroup`), reduced to what the marker does with it: items are opaque handles that are
 * live until destroyed, carry a transform and a child transform, and have ordered children.
 */
module DrawingBackend {
  import opened Geometry

  type Handle = nat

  class Drawing {
    var live: set<Handle>
    var next: Handle
    var transform: map<Handle, Transform>
    var childTransform: map<Handle, Transform>
    var children: map<Handle, seq<Handle>>

    ghost predicate Valid()
      reads this
    {
      forall h :: h in live ==> h < next
    }

    constructor ()
      ensures Valid() && live == {} && next == 0
      ensures transform == map[] && childTransform == map[] && children == map[]
    {
      live, next := {}, 0;
      transform, childTransform, children := map[], map[], map[];
    }

    function ChildrenOf(parent: Handle): seq<Handle>
      reads this
    {
      if parent in children then children[parent] else []
    }

    /** A new group item (what `SPGroup::show` hands back): a handle that was never used before. */
    method CreateGroup() returns (h: Handle)
      requires Valid()
      modifies this`live, this`next
      ensures Valid()
      ensures h == old(next) && h !in old(live)
      ensures live == old(live) + {h} && next == old(next) + 1
    {
      h := next;
      live := live + {h};
      next := next + 1;
    }

    /** `delete item`; deleting NULL is modelled by not calling it. */
    method Destroy(h: Handle)
      requires Valid()
      modifies this`live
      ensures Valid() && live == old(live) - {h}
    {
      live := live - {h};
    }

    method SetTransform(h: Handle, t: Transform)
      modifies this`transform
      ensures transform == old(transform)[h := t]
    {
      transform := transform[h := t];
    }

    method SetChildTransform(h: Handle, t: Transform)
      modifies this`childTransform
      ensures childTransform == old(childTransform)[h := t]
    {
      childTransform := childTransform[h := t];
    }

    method PrependChild(parent: Handle, h: Handle)
      modifies this`children
      ensures children == old(children)[parent := [h] + old(ChildrenOf(parent))]
    {
      children := children[parent := [h] + ChildrenOf(parent)];
    }
  }
}
