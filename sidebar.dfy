/**
  The navigation sidebar: which categories are unfolded, and the icons shown for categories and
  agents.
 */
module Sidebar {
  import opened Strings
  import Lists

  /** The icons the sidebar draws. */
  datatype Icon = Box | ShoppingCart | User | FileText | DollarSign | Clipboard | Archive | Activity | Truck

  /** The test `c !== id`. */
  function KeepCategory(id: string): string -> bool {
    (c: string) => c != id
  }

  /** `toggleCategory` on the list of unfolded category ids: an id in the list is removed, every
      occurrence of it; an id not in the list is added at the end. */
  function Toggled(open: seq<string>, id: string): (r: seq<string>)
    ensures id in r <==> id !in open
    ensures forall c :: c != id ==> (c in r <==> c in open)
    ensures id !in open ==> r == open + [id]
  {
    if id in open then Lists.Filter(open, KeepCategory(id)) else open + [id]
  }

  /** The sidebar's one ref. */
  class Nav {
    var openCategories: seq<string>

    /** Only the first category starts unfolded. */
    constructor()
      ensures openCategories == ["chan"]
    {
      openCategories := ["chan"];
    }

    /** `toggleCategory`: a filtered copy replaces the list, or the id is pushed onto it. */
    method ToggleCategory(id: string)
      modifies this
      ensures openCategories == Toggled(old(openCategories), id)
    {
      if id in openCategories {
        openCategories := Lists.Filter(openCategories, KeepCategory(id));
      } else {
        openCategories := openCategories + [id];
      }
    }
  }

  /** Unfolding a folded category and folding it again gives the list back. */
  lemma ToggleAbsentTwice(open: seq<string>, id: string)
    requires id !in open
    ensures Toggled(Toggled(open, id), id) == open
  {
    Lists.FilterAppend(open, [id], KeepCategory(id));
    assert Lists.Filter([id], KeepCategory(id)) == [];
    Lists.AppendNil(open);
  }

  /** Folding and unfolding an unfolded category moves it to the end of the list, once. */
  lemma TogglePresentTwice(open: seq<string>, id: string)
    requires id in open
    ensures Toggled(Toggled(open, id), id) == Lists.Filter(open, KeepCategory(id)) + [id]
  {
  }

  /** Folding a category keeps every other id in its place, in order. */
  lemma ToggleKeepsOrder(before: seq<string>, c: string, after: seq<string>, id: string)
    requires id in before + [c] + after && c != id
    ensures Toggled(before + [c] + after, id) ==
              Lists.Filter(before, KeepCategory(id)) + [c] + Lists.Filter(after, KeepCategory(id))
  {
    Lists.FilterAround(before, c, after, KeepCategory(id));
  }

  /** `getCategoryIcon`. */
  function CategoryIcon(id: string): Icon {
    match id
    case "chan" => Box
    case "xiao" => ShoppingCart
    case "ren" => User
    case "fa" => FileText
    case "cai" => DollarSign
    case _ => Box
  }

  /** The five categories have five different icons, and any other id shares the first one's. */
  lemma CategoryIcons(id: string)
    ensures [CategoryIcon("chan"), CategoryIcon("xiao"), CategoryIcon("ren"), CategoryIcon("fa"), CategoryIcon("cai")]
              == [Box, ShoppingCart, User, FileText, DollarSign]
    ensures id !in ["xiao", "ren", "fa", "cai"] ==> CategoryIcon(id) == Box
  {
  }

  /** `getAgentIcon`: the first of four words found in the name picks the icon. */
  function AgentIcon(name: string): Icon {
    if Includes(name, "訂單") then Clipboard
    else if Includes(name, "庫存") then Archive
    else if Includes(name, "品質") then Activity
    else if Includes(name, "流程") then Truck
    else FileText
  }

  /** Each icon is chosen exactly when its word occurs in the name and no word before it does. */
  lemma AgentIconSpec(name: string)
    ensures AgentIcon(name) == Clipboard <==> exists i: nat :: Occurs(name, "訂單", i)
    ensures AgentIcon(name) == Archive <==>
              (exists i: nat :: Occurs(name, "庫存", i)) && !(exists i: nat :: Occurs(name, "訂單", i))
    ensures AgentIcon(name) == Activity <==>
              (exists i: nat :: Occurs(name, "品質", i)) && !(exists i: nat :: Occurs(name, "訂單", i))
              && !(exists i: nat :: Occurs(name, "庫存", i))
    ensures AgentIcon(name) == Truck <==>
              (exists i: nat :: Occurs(name, "流程", i)) && !(exists i: nat :: Occurs(name, "訂單", i))
              && !(exists i: nat :: Occurs(name, "庫存", i)) && !(exists i: nat :: Occurs(name, "品質", i))
    ensures AgentIcon(name) == FileText <==>
              !(exists i: nat :: Occurs(name, "訂單", i)) && !(exists i: nat :: Occurs(name, "庫存", i))
              && !(exists i: nat :: Occurs(name, "品質", i)) && !(exists i: nat :: Occurs(name, "流程", i))
    ensures AgentIcon(name) in {Clipboard, Archive, Activity, Truck, FileText}
  {
    IncludesSpec(name, "訂單");
    IncludesSpec(name, "庫存");
    IncludesSpec(name, "品質");
    IncludesSpec(name, "流程");
  }
}
