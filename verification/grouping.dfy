/**
 * The grouped view of GetTodosGroupedByCategory: a fold over the flat rows of
 * the grouped query that opens one group per category on its first row and
 * appends the row's todo, when the row has one, to that category's group.
 */
module Grouping {
  import opened Wrappers
  import opened Models
  import opened Errors

  /** The todo a row carries: none when `todoId` is 0; absent timestamps become "". */
  function RowTodo(r: GroupedRow): (t: Option<TodoInCategory>)
    ensures t.Some? <==> r.todoId > 0
    ensures t.Some? ==>
      && t.value.id == r.todoId && t.value.title == r.todoTitle && t.value.description == r.todoDescription
      && t.value.completed == r.todoCompleted && t.value.createdBy == r.todoCreatedBy
      && t.value.creatorName == r.todoCreatorName
      && t.value.createdAt == (if r.todoCreatedAt.Some? then r.todoCreatedAt.value else "")
      && t.value.updatedAt == (if r.todoUpdatedAt.Some? then r.todoUpdatedAt.value else "")
  {
    if r.todoId > 0 then
      Some(TodoInCategory(
        r.todoId, r.todoTitle, r.todoDescription, r.todoCompleted, r.todoCreatedBy, r.todoCreatorName,
        OrEmpty(r.todoCreatedAt), OrEmpty(r.todoUpdatedAt)))
    else None
  }

  /** A nullable timestamp as the view prints it. */
  function OrEmpty(t: Option<string>): string
  {
    if t.Some? then t.value else ""
  }

  /** The group a category's first row opens: its metadata and no todos yet. */
  function Header(r: GroupedRow): CategoryWithTodos
  {
    CategoryWithTodos(r.categoryId, r.categoryName, r.categoryOwnerId, r.categoryOwnerName, r.userPermission, [])
  }

  /** The position of the group for category `id`, or -1. */
  function IndexOf(groups: seq<CategoryWithTodos>, id: nat): (i: int)
    ensures -1 <= i < |groups|
    ensures i >= 0 ==> groups[i].id == id
    ensures i < 0 ==> forall k :: 0 <= k < |groups| ==> groups[k].id != id
  {
    if |groups| == 0 then -1
    else if groups[0].id == id then 0
    else
      var k := IndexOf(groups[1..], id);
      if k < 0 then -1 else k + 1
  }

  /** One step of the fold: open the row's group if it is new, then append its todo if it has one. */
  function AddRow(groups: seq<CategoryWithTodos>, r: GroupedRow): seq<CategoryWithTodos>
  {
    var i := IndexOf(groups, r.categoryId);
    var gs := if i < 0 then groups + [Header(r)] else groups;
    var j := if i < 0 then |groups| else i;
    match RowTodo(r)
    case None => gs
    case Some(t) => gs[j := gs[j].(todos := gs[j].todos + [t])]
  }

  /** The fold over the rows in their order. */
  function Group(rows: seq<GroupedRow>): seq<CategoryWithTodos>
  {
    if |rows| == 0 then [] else AddRow(Group(rows[..|rows| - 1]), rows[|rows| - 1])
  }

  // ---- the reference description of the result ----

  /** The category ids the rows mention. */
  function CategoryIds(rows: seq<GroupedRow>): set<nat>
  {
    set k | 0 <= k < |rows| :: rows[k].categoryId
  }

  /** The category ids of the groups. */
  function GroupIds(groups: seq<CategoryWithTodos>): set<nat>
  {
    set k | 0 <= k < |groups| :: groups[k].id
  }

  /** The position of the first row of category `id`. */
  function FirstIndex(rows: seq<GroupedRow>, id: nat): (k: nat)
    requires id in CategoryIds(rows)
    ensures k < |rows| && rows[k].categoryId == id
    ensures forall j :: 0 <= j < k ==> rows[j].categoryId != id
  {
    var n := |rows| - 1;
    assert rows == rows[..n] + [rows[n]];
    if id in CategoryIds(rows[..n]) then FirstIndex(rows[..n], id)
    else
      assert forall j :: 0 <= j < n ==> rows[j] == rows[..n][j];
      n
  }

  /** The todos of category `id`'s rows that carry one, in row order. */
  function TodosOf(rows: seq<GroupedRow>, id: nat): seq<TodoInCategory>
  {
    if |rows| == 0 then []
    else
      var r := rows[|rows| - 1];
      TodosOf(rows[..|rows| - 1], id) + (if r.categoryId == id && r.todoId > 0 then [RowTodo(r).value] else [])
  }

  /** The number of rows that carry a todo. */
  function TodoRows(rows: seq<GroupedRow>): nat
  {
    if |rows| == 0 then 0
    else TodoRows(rows[..|rows| - 1]) + (if rows[|rows| - 1].todoId > 0 then 1 else 0)
  }

  /** The number of todos over all groups. */
  function TodoTotal(groups: seq<CategoryWithTodos>): nat
  {
    if |groups| == 0 then 0 else TodoTotal(groups[..|groups| - 1]) + |groups[|groups| - 1].todos|
  }

  /** Each category has at most one group. */
  predicate Distinct(groups: seq<CategoryWithTodos>)
  {
    forall i, j :: 0 <= i < j < |groups| ==> groups[i].id != groups[j].id
  }

  /** The groups are exactly the categories the rows mention. */
  predicate Covers(groups: seq<CategoryWithTodos>, rows: seq<GroupedRow>)
  {
    && GroupIds(groups) == CategoryIds(rows)
    && (forall i :: 0 <= i < |groups| ==> groups[i].id in CategoryIds(rows))
  }

  /** Each group's metadata is that of its category's first row. */
  predicate HeadersFromFirstRows(groups: seq<CategoryWithTodos>, rows: seq<GroupedRow>)
    requires Covers(groups, rows)
  {
    forall i :: 0 <= i < |groups| ==> groups[i].(todos := []) == Header(rows[FirstIndex(rows, groups[i].id)])
  }

  /** The groups come in the order of their categories' first rows. */
  predicate FirstSeenOrder(groups: seq<CategoryWithTodos>, rows: seq<GroupedRow>)
    requires Covers(groups, rows)
  {
    forall i, j :: 0 <= i < j < |groups| ==> FirstIndex(rows, groups[i].id) < FirstIndex(rows, groups[j].id)
  }

  /** Each group holds exactly its category's todos, in row order. */
  predicate TodosMatch(groups: seq<CategoryWithTodos>, rows: seq<GroupedRow>)
  {
    forall i :: 0 <= i < |groups| ==> groups[i].todos == TodosOf(rows, groups[i].id)
  }

  /**
   * `groups` is the grouped view of `rows`: one group per distinct category,
   * in the order of the categories' first rows, each with its first row's
   * metadata and exactly its rows' todos.
   */
  predicate GroupedAs(groups: seq<CategoryWithTodos>, rows: seq<GroupedRow>)
  {
    && Covers(groups, rows)
    && Distinct(groups)
    && HeadersFromFirstRows(groups, rows)
    && FirstSeenOrder(groups, rows)
    && TodosMatch(groups, rows)
  }

  // ---- facts about one more row ----

  /** The todo list a row adds to its category. */
  function Extra(r: GroupedRow): seq<TodoInCategory>
  {
    if r.todoId > 0 then [RowTodo(r).value] else []
  }

  /** What one fold step does to the groups: one new group at the end, or the todo appended to the existing one. */
  lemma AddRowShape(groups: seq<CategoryWithTodos>, r: GroupedRow)
    ensures var i := IndexOf(groups, r.categoryId);
      var g' := AddRow(groups, r);
      && |g'| == |groups| + (if i < 0 then 1 else 0)
      && (forall k :: 0 <= k < |groups| ==> g'[k].id == groups[k].id && g'[k].(todos := []) == groups[k].(todos := []))
      && (forall k :: 0 <= k < |groups| ==> g'[k].todos == groups[k].todos + (if k == i then Extra(r) else []))
      && (i < 0 ==> g'[|groups|].(todos := []) == Header(r) && g'[|groups|].todos == Extra(r))
  {
  }

  lemma CategoryIdsSnoc(rows: seq<GroupedRow>, r: GroupedRow)
    ensures CategoryIds(rows + [r]) == CategoryIds(rows) + {r.categoryId}
  {
    var rs := rows + [r];
    forall id | id in CategoryIds(rs)
      ensures id in CategoryIds(rows) + {r.categoryId}
    {
      var k :| 0 <= k < |rs| && rs[k].categoryId == id;
      if k < |rows| { assert rows[k] == rs[k]; }
    }
    forall id | id in CategoryIds(rows)
      ensures id in CategoryIds(rs)
    {
      var k :| 0 <= k < |rows| && rows[k].categoryId == id;
      assert rs[k] == rows[k];
    }
    assert rs[|rows|] == r;
  }

  lemma FirstIndexSnoc(rows: seq<GroupedRow>, r: GroupedRow, id: nat)
    requires id in CategoryIds(rows + [r])
    ensures id in CategoryIds(rows) ==> FirstIndex(rows + [r], id) == FirstIndex(rows, id)
    ensures id !in CategoryIds(rows) ==> FirstIndex(rows + [r], id) == |rows| && id == r.categoryId
  {
    CategoryIdsSnoc(rows, r);
    assert (rows + [r])[..|rows|] == rows;
  }

  lemma TodosOfSnoc(rows: seq<GroupedRow>, r: GroupedRow, id: nat)
    ensures TodosOf(rows + [r], id) == TodosOf(rows, id) + (if r.categoryId == id then Extra(r) else [])
  {
    assert (rows + [r])[..|rows|] == rows;
  }

  lemma {:induction false} TodosOfAbsent(rows: seq<GroupedRow>, id: nat)
    requires id !in CategoryIds(rows)
    ensures TodosOf(rows, id) == []
  {
    if |rows| > 0 {
      var n := |rows| - 1;
      assert rows == rows[..n] + [rows[n]];
      CategoryIdsSnoc(rows[..n], rows[n]);
      TodosOfAbsent(rows[..n], id);
    }
  }

  lemma IndexOfDistinct(groups: seq<CategoryWithTodos>, p: nat)
    requires Distinct(groups) && p < |groups|
    ensures IndexOf(groups, groups[p].id) == p
  {
  }

  lemma AddRowKeepsDistinct(groups: seq<CategoryWithTodos>, r: GroupedRow)
    requires Distinct(groups)
    ensures Distinct(AddRow(groups, r))
  {
    AddRowShape(groups, r);
  }

  lemma AddRowKeepsCovers(groups: seq<CategoryWithTodos>, rows: seq<GroupedRow>, r: GroupedRow)
    requires Covers(groups, rows)
    ensures Covers(AddRow(groups, r), rows + [r])
  {
    var g' := AddRow(groups, r);
    var i := IndexOf(groups, r.categoryId);
    AddRowShape(groups, r);
    CategoryIdsSnoc(rows, r);
    var extra: set<nat> := if i < 0 then {r.categoryId} else {};
    forall id | id in GroupIds(g') ensures id in GroupIds(groups) + extra {
      var k :| 0 <= k < |g'| && g'[k].id == id;
      if k < |groups| { assert groups[k].id == id; }
    }
    forall id | id in GroupIds(groups) ensures id in GroupIds(g') {
      var k :| 0 <= k < |groups| && groups[k].id == id;
      assert g'[k].id == id;
    }
    if i < 0 {
      assert g'[|groups|].id == r.categoryId;
      assert r.categoryId in GroupIds(g');
    } else {
      assert groups[i].id == r.categoryId;
    }
    assert GroupIds(g') == GroupIds(groups) + extra;
  }

  lemma AddRowKeepsHeaders(groups: seq<CategoryWithTodos>, rows: seq<GroupedRow>, r: GroupedRow)
    requires Covers(groups, rows) && HeadersFromFirstRows(groups, rows)
    ensures Covers(AddRow(groups, r), rows + [r])
    ensures HeadersFromFirstRows(AddRow(groups, r), rows + [r])
  {
    var g' := AddRow(groups, r);
    AddRowKeepsCovers(groups, rows, r);
    AddRowShape(groups, r);
    forall k | 0 <= k < |g'|
      ensures g'[k].(todos := []) == Header((rows + [r])[FirstIndex(rows + [r], g'[k].id)])
    {
      FirstIndexSnoc(rows, r, g'[k].id);
      if k < |groups| {
        assert g'[k].id == groups[k].id;
        assert (rows + [r])[FirstIndex(rows, groups[k].id)] == rows[FirstIndex(rows, groups[k].id)];
      } else {
        assert r.categoryId !in GroupIds(groups);
      }
    }
  }

  lemma AddRowKeepsOrder(groups: seq<CategoryWithTodos>, rows: seq<GroupedRow>, r: GroupedRow)
    requires Covers(groups, rows) && FirstSeenOrder(groups, rows)
    ensures Covers(AddRow(groups, r), rows + [r])
    ensures FirstSeenOrder(AddRow(groups, r), rows + [r])
  {
    var g' := AddRow(groups, r);
    AddRowKeepsCovers(groups, rows, r);
    AddRowShape(groups, r);
    forall a, b | 0 <= a < b < |g'|
      ensures FirstIndex(rows + [r], g'[a].id) < FirstIndex(rows + [r], g'[b].id)
    {
      FirstIndexSnoc(rows, r, g'[a].id);
      FirstIndexSnoc(rows, r, g'[b].id);
      assert g'[a].id == groups[a].id;
      if b < |groups| {
        assert g'[b].id == groups[b].id;
      } else {
        assert r.categoryId !in GroupIds(groups);
      }
    }
  }

  lemma AddRowKeepsTodos(groups: seq<CategoryWithTodos>, rows: seq<GroupedRow>, r: GroupedRow)
    requires Covers(groups, rows) && Distinct(groups) && TodosMatch(groups, rows)
    ensures TodosMatch(AddRow(groups, r), rows + [r])
  {
    var g' := AddRow(groups, r);
    var i := IndexOf(groups, r.categoryId);
    AddRowShape(groups, r);
    forall k | 0 <= k < |g'|
      ensures g'[k].todos == TodosOf(rows + [r], g'[k].id)
    {
      TodosOfSnoc(rows, r, g'[k].id);
      if k < |groups| {
        assert g'[k].id == groups[k].id;
        if i >= 0 && groups[k].id == r.categoryId {
          IndexOfDistinct(groups, k);
        }
      } else {
        assert r.categoryId !in GroupIds(groups);
        TodosOfAbsent(rows, r.categoryId);
      }
    }
  }

  /** The fold step keeps the reference description. */
  lemma AddRowKeepsGrouping(groups: seq<CategoryWithTodos>, rows: seq<GroupedRow>, r: GroupedRow)
    requires GroupedAs(groups, rows)
    ensures GroupedAs(AddRow(groups, r), rows + [r])
  {
    AddRowKeepsDistinct(groups, r);
    AddRowKeepsHeaders(groups, rows, r);
    AddRowKeepsOrder(groups, rows, r);
    AddRowKeepsTodos(groups, rows, r);
  }

  /**
   * The fold computes the grouped view: exactly one group per distinct
   * category id, in first-seen order, with the first row's metadata and the
   * category's todos in row order.
   */
  lemma {:induction false} GroupIsGroupedView(rows: seq<GroupedRow>)
    ensures GroupedAs(Group(rows), rows)
  {
    if |rows| == 0 {
      assert CategoryIds(rows) == {};
      assert GroupIds([]) == {};
    } else {
      var n := |rows| - 1;
      GroupIsGroupedView(rows[..n]);
      AddRowKeepsGrouping(Group(rows[..n]), rows[..n], rows[n]);
      assert rows[..n] + [rows[n]] == rows;
    }
  }

  /** Whatever the rows, no category gets two groups. */
  lemma {:induction false} GroupDistinct(rows: seq<GroupedRow>)
    ensures Distinct(Group(rows))
  {
    if |rows| > 0 {
      GroupDistinct(rows[..|rows| - 1]);
      AddRowKeepsDistinct(Group(rows[..|rows| - 1]), rows[|rows| - 1]);
    }
  }

  // ---- the number of todos ----

  lemma TodoTotalSnoc(groups: seq<CategoryWithTodos>, h: CategoryWithTodos)
    ensures TodoTotal(groups + [h]) == TodoTotal(groups) + |h.todos|
  {
    assert (groups + [h])[..|groups|] == groups;
  }

  lemma {:induction false} TodoTotalUpdate(groups: seq<CategoryWithTodos>, j: nat, h: CategoryWithTodos)
    requires j < |groups|
    ensures TodoTotal(groups[j := h]) + |groups[j].todos| == TodoTotal(groups) + |h.todos|
  {
    var n := |groups| - 1;
    var u := groups[j := h];
    if j < n {
      assert u[..n] == groups[..n][j := h];
      TodoTotalUpdate(groups[..n], j, h);
    } else {
      assert u[..n] == groups[..n];
    }
  }

  /** Every row with a todo contributes exactly one todo to the view, and no other row contributes one. */
  lemma {:induction false} GroupTodoCount(rows: seq<GroupedRow>)
    ensures TodoTotal(Group(rows)) == TodoRows(rows)
  {
    if |rows| > 0 {
      var n := |rows| - 1;
      var g := Group(rows[..n]);
      var r := rows[n];
      GroupTodoCount(rows[..n]);
      var i := IndexOf(g, r.categoryId);
      var gs := if i < 0 then g + [Header(r)] else g;
      var j := if i < 0 then |g| else i;
      if i < 0 {
        TodoTotalSnoc(g, Header(r));
      }
      if r.todoId > 0 {
        TodoTotalUpdate(gs, j, gs[j].(todos := gs[j].todos + [RowTodo(r).value]));
      }
    }
  }

  /** The position map agrees with the groups: it holds exactly the grouped ids, each at its group. */
  predicate Indexes(position: map<nat, nat>, groups: seq<CategoryWithTodos>)
  {
    && (forall id :: id in position ==> position[id] < |groups| && groups[position[id]].id == id)
    && (forall p :: 0 <= p < |groups| ==> groups[p].id in position)
  }

  /** One iteration of the loop: find or open the row's group through the map, then append its todo. */
  method PlaceRow(groups: seq<CategoryWithTodos>, position: map<nat, nat>, row: GroupedRow)
    returns (groups': seq<CategoryWithTodos>, position': map<nat, nat>)
    requires Distinct(groups) && Indexes(position, groups)
    ensures groups' == AddRow(groups, row)
    ensures Indexes(position', groups')
  {
    AddRowShape(groups, row);
    groups' := groups;
    position' := position;
    if row.categoryId !in position {
      assert IndexOf(groups, row.categoryId) < 0;
      position' := position[row.categoryId := |groups|];
      groups' := groups + [Header(row)];
    } else {
      IndexOfDistinct(groups, position[row.categoryId]);
    }
    var j := position'[row.categoryId];
    if row.todoId > 0 {
      groups' := groups'[j := groups'[j].(todos := groups'[j].todos + [RowTodo(row).value])];
    }
  }

  /**
   * The loop of GetTodosGroupedByCategory: a map from category id to the
   * group's position, and the groups in the order their categories were
   * first seen.
   */
  method BuildGroupedView(rows: seq<GroupedRow>) returns (groups: seq<CategoryWithTodos>)
    ensures groups == Group(rows)
    ensures GroupedAs(groups, rows)
    ensures TodoTotal(groups) == TodoRows(rows)
  {
    var position: map<nat, nat> := map[];
    groups := [];
    var k := 0;
    while k < |rows|
      invariant 0 <= k <= |rows|
      invariant groups == Group(rows[..k])
      invariant Indexes(position, groups)
    {
      GroupDistinct(rows[..k]);
      assert rows[..k + 1] == rows[..k] + [rows[k]];
      groups, position := PlaceRow(groups, position, rows[k]);
      k := k + 1;
    }
    assert rows[..k] == rows;
    GroupIsGroupedView(rows);
    GroupTodoCount(rows);
  }

  /**
   * GetTodosGroupedByCategory: the grouped view of the rows the repository
   * returns, or the wrapped repository error.
   */
  method GetTodosGroupedByCategory(fetched: Option<seq<GroupedRow>>) returns (r: Result<seq<CategoryWithTodos>, Err>)
    ensures fetched.None? ==> r == Fail(Internal("failed to fetch todos grouped by category"))
    ensures fetched.Some? ==> r.Ok? && GroupedAs(r.value, fetched.value) && TodoTotal(r.value) == TodoRows(fetched.value)
  {
    if fetched.None? {
      return Fail(Internal("failed to fetch todos grouped by category"));
    }
    var groups := BuildGroupedView(fetched.value);
    return Ok(groups);
  }
}
