/** The child store: the fixed list of children and the one currently
    active. Selecting an id that names no child is ignored, so the active
    child can be replaced but never cleared. */
module ChildStore {
  import opened Strings
  import opened Types

  /** The three children the store starts with. */
  const InitialChildren: seq<Child> := [
    Child("child-1", "Child 1", 5, None),
    Child("child-2", "Child 2", 8, None),
    Child("child-3", "Child 3", 11, None)
  ]

  /** `children.find(c => c.id === childId)`: the first child with that id. */
  function FindChild(children: seq<Child>, id: ChildId): (r: Option<Child>)
    ensures r.None? <==> forall i :: 0 <= i < |children| ==> children[i].id != id
    ensures r.Some? ==> exists i :: 0 <= i < |children| && children[i] == r.value
                          && r.value.id == id
                          && forall j :: 0 <= j < i ==> children[j].id != id
  {
    if children == [] then None
    else if children[0].id == id then Some(children[0])
    else
      var r := FindChild(children[1..], id);
      if r.Some? then
        var i :| 0 <= i < |children[1..]| && children[1..][i] == r.value && r.value.id == id
                 && forall j :: 0 <= j < i ==> children[1..][j].id != id;
        assert children[i + 1] == r.value;
        r
      else
        r
  }

  /** The active child after `selectChild(id)`: the matching child, or the
      previous one when no child has that id. */
  function Selected(children: seq<Child>, active: Option<Child>, id: ChildId): (r: Option<Child>)
    ensures FindChild(children, id).Some? ==> r == FindChild(children, id) && r.value.id == id
    ensures FindChild(children, id).None? ==> r == active
  {
    var c := FindChild(children, id);
    if c.Some? then c else active
  }

  /** The store's state, `ChildState` in the source. */
  class ChildState {
    var children: seq<Child>
    var activeChild: Option<Child>

    constructor ()
      ensures children == InitialChildren && activeChild == None
    {
      children := InitialChildren;
      activeChild := None;
    }

    /** `selectChild`: makes the child with that id active, if there is one. */
    method SelectChild(id: ChildId)
      modifies this`activeChild
      ensures activeChild == Selected(children, old(activeChild), id)
    {
      var c := FindChild(children, id);
      if c.Some? {
        activeChild := c;
      }
    }

    /** `getChild`: the first child with that id, or nothing. */
    method GetChild(id: ChildId) returns (r: Option<Child>)
      ensures r == FindChild(children, id)
    {
      r := FindChild(children, id);
    }
  }

  /** Every id of the initial children is found, and finds that child. */
  lemma InitialChildrenFound()
    ensures FindChild(InitialChildren, "child-1") == Some(InitialChildren[0])
    ensures FindChild(InitialChildren, "child-2") == Some(InitialChildren[1])
    ensures FindChild(InitialChildren, "child-3") == Some(InitialChildren[2])
  {
  }

  /** The empty id names no initial child, so selecting it (as the user
      store's logout does) keeps whatever child was active. */
  lemma SelectEmptyKeepsActive(active: Option<Child>)
    ensures Selected(InitialChildren, active, "") == active
  {
    assert forall i :: 0 <= i < |InitialChildren| ==> InitialChildren[i].id != "" by {
      forall i | 0 <= i < |InitialChildren| ensures InitialChildren[i].id != "" {
        assert |InitialChildren[i].id| == 7;
      }
    }
  }

  /** Selecting twice with the same id is selecting once. */
  lemma SelectIdempotent(children: seq<Child>, active: Option<Child>, id: ChildId)
    ensures Selected(children, Selected(children, active, id), id) == Selected(children, active, id)
  {
  }

  /** When ids are distinct, selecting a child's id makes exactly that child
      active, and looking it up returns it. */
  lemma {:induction false} SelectMember(children: seq<Child>, active: Option<Child>, k: nat)
    requires k < |children|
    requires forall i, j :: 0 <= i < j < |children| ==> children[i].id != children[j].id
    ensures FindChild(children, children[k].id) == Some(children[k])
    ensures Selected(children, active, children[k].id) == Some(children[k])
  {
    var r := FindChild(children, children[k].id);
    var i :| 0 <= i < |children| && children[i] == r.value && r.value.id == children[k].id
             && forall j :: 0 <= j < i ==> children[j].id != children[k].id;
    if i < k {
      assert children[i].id != children[k].id;
    }
  }
}
