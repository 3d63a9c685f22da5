/**
 * The message descriptions of the API and their linking: every struct field is given the field
 * list of the description its struct name refers to, on field objects that lists share.
 */
module Linker {

  /** A Go slice of field pointers; a nil slice is not an empty one. */
  datatype Slice = Nil | Of(items: seq<FieldMeta>)

  class FieldMeta {
    const typ: string
    const structName: string
    var fields: Slice

    constructor (typ: string, structName: string, fields: Slice)
      ensures this.typ == typ && this.structName == structName && this.fields == fields
    {
      this.typ := typ;
      this.structName := structName;
      this.fields := fields;
    }
  }

  class MessageDescription {
    var fields: Slice

    constructor (fields: Slice)
      ensures this.fields == fields
    {
      this.fields := fields;
    }
  }

  type Table = map<string, MessageDescription>

  predicate IsStruct(typ: string) {
    typ == "struct" || typ == "[]struct" || typ == "object" || typ == "[]object"
  }

  function Items(s: Slice): seq<FieldMeta> {
    if s.Nil? then [] else s.items
  }

  /* ---- The heap as a value ---- */

  /** The field lists of the descriptions by full name. */
  type Lists = map<string, Slice>

  /** The nested field list of every field. */
  type Nested = map<FieldMeta, Slice>

  ghost function ListsOf(table: Table): Lists
    reads table.Values
  {
    map name | name in table :: table[name].fields
  }

  ghost function Members(lists: Lists): set<FieldMeta> {
    set name, f | name in lists && f in Items(lists[name]) :: f
  }

  ghost function NestedOf(fs: set<FieldMeta>): Nested
    reads fs
  {
    map f | f in fs :: f.fields
  }

  /** The field refers to a description of the table. */
  predicate Refers(lists: Lists, f: FieldMeta) {
    IsStruct(f.typ) && f.structName in lists
  }

  /** What linking makes of the nested list s of the field. */
  function LinkedSlice(lists: Lists, f: FieldMeta, s: Slice): Slice {
    if s.Nil? && Refers(lists, f) then lists[f.structName] else s
  }

  ghost function Linked(lists: Lists, h: Nested): Nested {
    map f | f in h :: LinkedSlice(lists, f, h[f])
  }

  /* ---- Linking ---- */

  /**
   * Links the fields of one description. The frame is the field objects of the table: linking
   * creates no object and changes no description.
   */
  method LinkFields(ghost lists: Lists, ghost members: set<FieldMeta>, table: Table, md: MessageDescription)
    requires md in table.Values && lists == ListsOf(table) && members == Members(lists)
    modifies members`fields
    ensures forall f | f in members ::
              f.fields == if f in Items(md.fields) then LinkedSlice(lists, f, old(f.fields)) else old(f.fields)
  {
    hide Members;
    ghost var name :| name in table && table[name] == md;
    forall f | f in Items(md.fields) ensures f in members {
      MembersOf(lists, name, f);
    }
    var items := Items(md.fields);
    for i := 0 to |items|
      invariant md.fields == old(md.fields) && ListsOf(table) == lists
      invariant forall f | f in members ::
                  f.fields == if f in items[..i] then LinkedSlice(lists, f, old(f.fields)) else old(f.fields)
    {
      var field := items[i];
      if field.fields == Nil && IsStruct(field.typ) {
        if field.structName in table {
          field.fields := table[field.structName].fields;
        }
      }
      assert items[..i + 1] == items[..i] + [field];
    }
    assert items[..|items|] == items;
  }

  /** Links the table, ranging over it in an arbitrary order. */
  method LinkTable(table: Table)
    modifies Members(ListsOf(table))`fields
    ensures ListsOf(table) == old(ListsOf(table))
    ensures NestedOf(Members(ListsOf(table))) == old(Linked(ListsOf(table), NestedOf(Members(ListsOf(table)))))
  {
    hide Members;
    ghost var lists := ListsOf(table);
    ghost var members := Members(lists);
    ghost var before := NestedOf(members);
    var todo := table.Keys;
    ghost var done: set<FieldMeta> := {};
    while todo != {}
      invariant todo <= table.Keys && ListsOf(table) == lists && done <= members
      invariant forall name | name in lists && name !in todo :: forall f | f in Items(lists[name]) :: f in done
      invariant forall f | f in members :: f.fields == if f in done then LinkedSlice(lists, f, before[f]) else before[f]
    {
      var name :| name in todo;
      todo := todo - {name};
      LinkFields(lists, members, table, table[name]);
      ghost var visited := set f | f in Items(lists[name]);
      forall f | f in visited ensures f in members {
        MembersOf(lists, name, f);
      }
      done := done + visited;
    }
    AllMembers(lists, done);
  }

  /** The table of a package, linked on the first use. */
  class Descriptions {
    const table: Table
    var once: bool

    ghost predicate Valid()
      reads this, table.Values, Members(ListsOf(table))
    {
      once ==> Linked(ListsOf(table), NestedOf(Members(ListsOf(table)))) == NestedOf(Members(ListsOf(table)))
    }

    constructor (table: Table)
      ensures this.table == table && !once && Valid()
    {
      this.table := table;
      this.once := false;
    }

    /** Every call returns the same linked table, and only the first changes it. */
    method GetMessageDescriptions() returns (t: Table)
      requires Valid()
      modifies this, Members(ListsOf(table))`fields
      ensures Valid() && once && t == table && ListsOf(table) == old(ListsOf(table))
      ensures NestedOf(Members(ListsOf(table))) == old(Linked(ListsOf(table), NestedOf(Members(ListsOf(table)))))
    {
      hide Members, NestedOf, ListsOf, Linked;
      if !once {
        LinkTable(table);
        LinkIdempotent(old(ListsOf(table)), old(NestedOf(Members(ListsOf(table)))));
        once := true;
      }
      t := table;
    }
  }

  /** The type of a field, or of its elements if it is repeated. */
  function Element(typ: string): string {
    if |typ| >= 2 && typ[0] == '[' && typ[1] == ']' then typ[2..] else typ
  }

  predicate IsMessage(typ: string) {
    Element(typ) == "struct" || Element(typ) == "object"
  }

  lemma StructExact(typ: string)
    ensures IsStruct(typ) <==> IsMessage(typ)
  {
    if |typ| >= 2 && typ[0] == '[' && typ[1] == ']' {
      assert typ == "[]" + typ[2..];
      assert "[]struct"[2..] == "struct" && "[]object"[2..] == "object";
      assert typ[0] != "struct"[0] && typ[0] != "object"[0];
    } else {
      assert "[]struct"[0] == '[' && "[]struct"[1] == ']' && "[]object"[0] == '[' && "[]object"[1] == ']';
    }
  }

  /**
   * Linking gives a field the list of the description it names, exactly if it has no list, names a
   * description of the table and is a struct or an object, or a list of them; no other changes.
   */
  lemma LinkedExact(lists: Lists, h: Nested, f: FieldMeta)
    requires f in h
    ensures Linked(lists, h).Keys == h.Keys
    ensures Linked(lists, h)[f] == LinkedSlice(lists, f, h[f])
    ensures LinkedSlice(lists, f, h[f]) ==
            if h[f] == Nil && f.structName in lists && IsMessage(f.typ) then lists[f.structName] else h[f]
  {
    hide IsStruct, IsMessage;
    StructExact(f.typ);
  }

  /** Linking a linked table changes nothing. */
  lemma LinkIdempotent(lists: Lists, h: Nested)
    ensures Linked(lists, Linked(lists, h)) == Linked(lists, h)
  {
  }

  /* ---- Any order ---- */

  /** One visit of a field. */
  ghost function Visit(lists: Lists, h: Nested, f: FieldMeta): Nested
    requires f in h
  {
    h[f := LinkedSlice(lists, f, h[f])]
  }

  ghost function Visits(lists: Lists, h: Nested, fs: seq<FieldMeta>): Nested
    requires forall f | f in fs :: f in h
  {
    if fs == [] then h else Visits(lists, Visit(lists, h, fs[0]), fs[1..])
  }

  /**
   * Visiting the fields in any order, any of them more than once, links exactly the visited ones,
   * although a field may be linked to a list whose own fields are not linked yet.
   */
  lemma {:induction false} VisitsInAnyOrder(lists: Lists, h: Nested, fs: seq<FieldMeta>)
    requires forall f | f in fs :: f in h
    ensures Visits(lists, h, fs) == map f | f in h :: if f in fs then LinkedSlice(lists, f, h[f]) else h[f]
    decreases |fs|
  {
    if fs != [] {
      VisitsInAnyOrder(lists, Visit(lists, h, fs[0]), fs[1..]);
    }
  }

  /* ---- Unfolding ---- */

  /** A field with the fields nested in it, all the way down. */
  datatype Tree = Tree(field: FieldMeta, nested: Forest)
  datatype Forest = NoList | List(trees: seq<Tree>)

  /** The nested lists can be followed from every field: a rank grows less with every step. */
  ghost predicate Ranked(h: Nested, rank: map<FieldMeta, nat>) {
    forall f | f in h :: f in rank &&
      forall g | g in Items(h[f]) :: g in h && g in rank && rank[g] < rank[f]
  }

  /** Follows the shared lists of the heap. */
  ghost function Unfold(h: Nested, rank: map<FieldMeta, nat>, f: FieldMeta): Tree
    requires Ranked(h, rank) && f in h
    decreases rank[f]
  {
    Tree(f, if h[f].Nil? then NoList
            else List(seq(|h[f].items|, i requires 0 <= i < |h[f].items| => Unfold(h, rank, h[f].items[i]))))
  }

  /** The references from description to description have no cycle. */
  ghost predicate Acyclic(lists: Lists, rank: map<string, nat>) {
    forall name | name in lists :: name in rank &&
      forall f | f in Items(lists[name]) && Refers(lists, f) :: f.structName in rank && rank[f.structName] < rank[name]
  }

  /** Expands the table by name, without a heap. */
  ghost function Expand(lists: Lists, rank: map<string, nat>, f: FieldMeta): Tree
    requires Acyclic(lists, rank)
    decreases if Refers(lists, f) then 1 + rank[f.structName] else 0
  {
    Tree(f, if !Refers(lists, f) || lists[f.structName].Nil? then NoList
            else
              var items := lists[f.structName].items;
              List(seq(|items|, i requires 0 <= i < |items| => Expand(lists, rank, items[i]))))
  }

  /** The fields of the table before linking, as the generated literals leave them: no nested lists. */
  ghost predicate Unlinked(lists: Lists, h: Nested) {
    h.Keys == Members(lists) && forall f | f in h :: h[f].Nil?
  }

  lemma MembersOf(lists: Lists, name: string, f: FieldMeta)
    requires name in lists && f in Items(lists[name])
    ensures f in Members(lists)
  {
  }

  /** The fields that are visited are those of all lists of the table. */
  lemma MembersExact(lists: Lists, f: FieldMeta)
    ensures f in Members(lists) <==> exists name | name in lists :: lists[name].Of? && f in lists[name].items
  {
    if name :| name in lists && lists[name].Of? && f in lists[name].items {
      MembersOf(lists, name, f);
    }
  }

  lemma AllMembers(lists: Lists, fs: set<FieldMeta>)
    requires fs <= Members(lists) && forall name | name in lists :: forall f | f in Items(lists[name]) :: f in fs
    ensures fs == Members(lists)
  {
  }

  /** An acyclic table can be followed after linking. */
  lemma LinkedRanked(lists: Lists, h: Nested, names: map<string, nat>)
    requires Unlinked(lists, h) && Acyclic(lists, names)
    ensures Ranked(Linked(lists, h), map f | f in h :: if Refers(lists, f) then 1 + names[f.structName] else 0)
  {
    var rank: map<FieldMeta, nat> := map f | f in h :: if Refers(lists, f) then 1 + names[f.structName] else 0;
    forall f, g | f in h && g in Items(Linked(lists, h)[f]) ensures g in h && rank[g] < rank[f] {
      MembersOf(lists, f.structName, g);
    }
  }

  /** What the shared lists unfold to is what the table says, at every depth. */
  lemma {:induction false} UnfoldIsExpand(lists: Lists, h: Nested, names: map<string, nat>,
                                          rank: map<FieldMeta, nat>, f: FieldMeta)
    requires Unlinked(lists, h) && Acyclic(lists, names) && Ranked(Linked(lists, h), rank) && f in h
    ensures Unfold(Linked(lists, h), rank, f) == Expand(lists, names, f)
    decreases rank[f]
  {
    var h' := Linked(lists, h);
    if h'[f].Of? {
      var items := h'[f].items;
      forall i | 0 <= i < |items| ensures Unfold(h', rank, items[i]) == Expand(lists, names, items[i]) {
        UnfoldIsExpand(lists, h, names, rank, items[i]);
      }
      assert Unfold(h', rank, f).nested.trees == Expand(lists, names, f).nested.trees;
    }
  }

  /* ---- Fields that come with a list ---- */

  /** The field refers to a description with a list, and has no list. */
  predicate Dangles(lists: Lists, f: FieldMeta, s: Slice) {
    s.Nil? && Refers(lists, f) && lists[f.structName].Of?
  }

  lemma LinkedNotDangling(lists: Lists, f: FieldMeta, s: Slice)
    ensures !Dangles(lists, f, LinkedSlice(lists, f, s))
  {
  }

  /** What linking makes of a heap with fields that are in no description: they are not visited. */
  ghost function LinkedMembers(lists: Lists, h: Nested): Nested {
    map f | f in h :: if f in Members(lists) then LinkedSlice(lists, f, h[f]) else h[f]
  }

  ghost predicate NoneDangles(lists: Lists, h: Nested, except: set<FieldMeta>) {
    forall f | f in h && f !in except :: !Dangles(lists, f, h[f])
  }

  /**
   * In a heap where fields come with lists of their own, no struct is left without its list
   * exactly when every field that is in no description has one already, or needs none.
   */
  lemma NoStructLeft(lists: Lists, h: Nested)
    ensures NoneDangles(lists, LinkedMembers(lists, h), {}) <==> NoneDangles(lists, h, Members(lists))
  {
    hide Members, Dangles, LinkedSlice;
    var h' := LinkedMembers(lists, h);
    if NoneDangles(lists, h', {}) {
      forall f | f in h && f !in Members(lists) ensures !Dangles(lists, f, h[f]) {
        assert f in h' && h'[f] == h[f];
      }
    }
    if NoneDangles(lists, h, Members(lists)) {
      forall f | f in h' ensures !Dangles(lists, f, h'[f]) {
        if f in Members(lists) {
          LinkedNotDangling(lists, f, h[f]);
        }
      }
    }
  }

  /* ---- Only an acyclic table ---- */

  /** The least bound above the ranks of the fields. */
  ghost function Above(rank: map<FieldMeta, nat>, fs: seq<FieldMeta>): (n: nat)
    requires forall f | f in fs :: f in rank
    ensures forall f | f in fs :: rank[f] < n
    ensures n == 0 || exists f | f in fs :: rank[f] + 1 == n
  {
    if fs == [] then 0
    else
      var n := Above(rank, fs[1..]);
      if rank[fs[0]] < n then n else rank[fs[0]] + 1
  }

  lemma RankedAcyclic(lists: Lists, h: Nested, rank: map<FieldMeta, nat>)
    requires Unlinked(lists, h) && Ranked(Linked(lists, h), rank)
    ensures exists names :: Acyclic(lists, names)
  {
    hide Members;
    forall name, f | name in lists && f in Items(lists[name]) ensures f in h && f in rank {
      MembersOf(lists, name, f);
      assert f in Linked(lists, h);
    }
    var names := map name | name in lists :: Above(rank, Items(lists[name]));
    forall name, f | name in lists && f in Items(lists[name]) && Refers(lists, f)
      ensures names[f.structName] < names[name]
    {
      assert f in h && Linked(lists, h)[f] == lists[f.structName];
      assert forall g | g in Items(lists[f.structName]) :: rank[g] < rank[f];
    }
    assert Acyclic(lists, names);
  }

  /** The linked lists can be followed to the end exactly when the references have no cycle. */
  lemma FollowedIffAcyclic(lists: Lists, h: Nested)
    requires Unlinked(lists, h)
    ensures (exists rank :: Ranked(Linked(lists, h), rank)) <==> (exists names :: Acyclic(lists, names))
  {
    if names :| Acyclic(lists, names) {
      LinkedRanked(lists, h, names);
    }
    if rank :| Ranked(Linked(lists, h), rank) {
      RankedAcyclic(lists, h, rank);
    }
  }
}
