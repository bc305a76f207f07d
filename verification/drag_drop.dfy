/** The drag-and-drop logic of the board page (BoardContainer.tsx): the
    `reorder` helper, the splice pair that moves a task between columns,
    and the guards and updates of a dropped user magnet. Lists are values:
    every splice works on a fresh copy (`Array.from`, immer's `produce`), so
    the list the page holds is never changed; the requests the handler
    sends are returned as data. */
module DragDrop {
  import opened Schema

  /** `splice` position for an index past the end: the end. */
  function Clamp(i: nat, n: nat): (k: nat)
    ensures k <= n && (k == i || (k == n && i > n))
  {
    if i <= n then i else n
  }

  /** `splice(i, 1)` on a copy: the element at i is gone; past the end,
      nothing is. */
  function Remove<T>(s: seq<T>, i: nat): (r: seq<T>)
    ensures i < |s| ==> |r| == |s| - 1 && multiset(r) + multiset{s[i]} == multiset(s)
    ensures i < |s| ==> (forall j :: 0 <= j < i ==> r[j] == s[j]) && (forall j :: i <= j < |r| ==> r[j] == s[j + 1])
    ensures i >= |s| ==> r == s
  {
    if i < |s| then
      assert s == s[..i] + [s[i]] + s[i + 1..];
      s[..i] + s[i + 1..]
    else s
  }

  /** `splice(i, 0, x)` on a copy: x lands at i, or at the end when i is past
      it, and everything from there on moves up by one. */
  function Insert<T>(s: seq<T>, i: nat, x: T): (r: seq<T>)
    ensures var k := Clamp(i, |s|);
      && |r| == |s| + 1 && r[k] == x && multiset(r) == multiset(s) + multiset{x}
      && (forall j :: 0 <= j < k ==> r[j] == s[j])
      && (forall j :: k < j < |r| ==> r[j] == s[j - 1])
  {
    var k := Clamp(i, |s|);
    assert s == s[..k] + s[k..];
    s[..k] + [x] + s[k..]
  }

  /** Taking out what was just put in gives back the list. */
  lemma RemoveInserted<T>(s: seq<T>, i: nat, x: T)
    ensures Remove(Insert(s, i, x), Clamp(i, |s|)) == s
  {
    var r := Remove(Insert(s, i, x), Clamp(i, |s|));
    assert |r| == |s|;
    forall j | 0 <= j < |s|
      ensures r[j] == s[j]
    {
    }
  }

  /** Putting an element back where it was taken from gives back the list. */
  lemma InsertRemoved<T>(s: seq<T>, i: nat)
    requires i < |s|
    ensures Insert(Remove(s, i), i, s[i]) == s
  {
    var r := Insert(Remove(s, i), i, s[i]);
    forall j | 0 <= j < |s|
      ensures r[j] == s[j]
    {
    }
  }

  /** `reorder`: the element at `start` is taken out and put back at `end`. */
  function Reorder<T>(list: seq<T>, start: nat, end: nat): seq<T>
    requires start < |list|
  {
    Insert(Remove(list, start), end, list[start])
  }

  /** `reorder` permutes its input: same length and same elements; the moved
      element ends at `end` (or at the last place, when `end` is past it);
      and taking it out leaves the other elements in their old relative
      order. Dragging it back from there restores the list. */
  lemma ReorderSpec<T>(list: seq<T>, start: nat, end: nat)
    requires start < |list|
    ensures var r := Reorder(list, start, end);
      var k := Clamp(end, |list| - 1);
      && |r| == |list|
      && multiset(r) == multiset(list)
      && r[k] == list[start]
      && Remove(r, k) == Remove(list, start)
      && Reorder(r, k, start) == list
  {
    var rest := Remove(list, start);
    var r := Reorder(list, start, end);
    var k := Clamp(end, |list| - 1);
    RemoveInserted(rest, end, list[start]);
    assert Reorder(r, k, start) == Insert(rest, start, list[start]);
    InsertRemoved(list, start);
  }

  /** Where a drag starts or ends: a droppable (a column, a task, or the
      board's user list) and a position in it. */
  datatype Location = Location(droppableId: string, index: nat)

  /** A drop outside every droppable, or back onto the place it started,
      is ignored. */
  predicate IgnoredDrop(source: Location, destination: Option<Location>) {
    destination.None? || destination.value == source
  }

  /** The lists the task drop sends to the server: one per column it
      changes. */
  datatype TaskUpdate<T> = TaskUpdate(column: string, tasks: seq<T>)

  /** A task drop: within one column the column's list is reordered; across
      columns the task is spliced out of the source list and into the
      destination list. */
  function TaskDrop<T>(source: Location, destination: Location, sourceTasks: seq<T>, destinationTasks: seq<T>)
    : seq<TaskUpdate<T>>
    requires destination.droppableId == source.droppableId ==> source.index < |destinationTasks|
    requires destination.droppableId != source.droppableId ==> source.index < |sourceTasks|
  {
    if destination.droppableId == source.droppableId then
      [TaskUpdate(source.droppableId, Reorder(destinationTasks, source.index, destination.index))]
    else
      [TaskUpdate(source.droppableId, Remove(sourceTasks, source.index)),
       TaskUpdate(destination.droppableId, Insert(destinationTasks, destination.index, sourceTasks[source.index]))]
  }

  /** A task moved across columns leaves the source list one shorter and
      the destination list one longer, holding the moved task at the drop
      position; no task is lost or duplicated between the two lists, and
      the order of the others is kept on both sides. */
  lemma CrossColumnMove<T>(source: Location, destination: Location, sourceTasks: seq<T>, destinationTasks: seq<T>)
    requires destination.droppableId != source.droppableId && source.index < |sourceTasks|
    ensures var u := TaskDrop(source, destination, sourceTasks, destinationTasks);
      var moved := sourceTasks[source.index];
      var k := Clamp(destination.index, |destinationTasks|);
      && |u| == 2
      && u[0].column == source.droppableId && u[1].column == destination.droppableId
      && |u[0].tasks| == |sourceTasks| - 1 && |u[1].tasks| == |destinationTasks| + 1
      && u[1].tasks[k] == moved
      && multiset(u[0].tasks) + multiset(u[1].tasks) == multiset(sourceTasks) + multiset(destinationTasks)
      && Remove(u[1].tasks, k) == destinationTasks
      && Insert(u[0].tasks, source.index, moved) == sourceTasks
  {
    RemoveInserted(destinationTasks, destination.index, sourceTasks[source.index]);
    InsertRemoved(sourceTasks, source.index);
  }

  /** A move within a column sends that column's list, reordered. */
  lemma SameColumnMove<T>(source: Location, destination: Location, tasks: seq<T>)
    requires destination.droppableId == source.droppableId && source.index < |tasks|
    ensures var u := TaskDrop(source, destination, tasks, tasks);
      && |u| == 1 && u[0].column == source.droppableId
      && multiset(u[0].tasks) == multiset(tasks)
      && u[0].tasks[Clamp(destination.index, |tasks| - 1)] == tasks[source.index]
  {
    ReorderSpec(tasks, source.index, destination.index);
  }

  datatype User = User(userid: string, name: string)

  /** The droppable that holds the board's users rather than a task's. */
  const UserList := "user-list"

  /** At most this many users sit on one task. */
  const MaxUsersPerTask := 3

  /** The name of the first user in `users` with id `id`, if any. */
  function MovingName(users: seq<User>, id: string): (r: Option<string>)
    ensures r.Some? <==> exists j :: 0 <= j < |users| && users[j].userid == id
    ensures r.Some? ==> exists j ::
      && 0 <= j < |users| && users[j].userid == id && users[j].name == r.value
      && (forall i :: 0 <= i < j ==> users[i].userid != id)
  {
    if users == [] then None
    else if users[0].userid == id then Some(users[0].name)
    else
      var r := MovingName(users[1..], id);
      assert forall j :: 0 < j < |users| ==> users[j] == users[1..][j - 1];
      r
  }

  /** The guards of a user drop onto a task: refused when the task already
      has three users, or when one of them has the moving user's name; a
      drop onto the user list is never refused. */
  predicate UserDropRefused(destination: Location, destinationUsers: seq<User>, movingName: Option<string>) {
    && destination.droppableId != UserList
    && (|destinationUsers| >= MaxUsersPerTask
        || exists j :: 0 <= j < |destinationUsers| && Some(destinationUsers[j].name) == movingName)
  }

  /** What a user drop asks the server to do. */
  datatype Request =
    | PostUser(ticket: string, user: User)
    | SetUsers(ticket: string, users: seq<User>)
    | DeleteUser(userid: string)

  /** A user drop: nothing when refused; from the user list onto a task, a
      new user for the task; from one task to another, the destination
      task's list with the user spliced in, then the source task's list with
      the user spliced out; from a task onto the user list, the user is
      deleted and spliced out of the source task's list. */
  function UserDrop(source: Location, destination: Location, draggableId: string,
                    userList: seq<User>, sourceUsers: seq<User>, destinationUsers: seq<User>): seq<Request>
    requires source.droppableId == UserList ==> source.index < |userList|
    requires source.droppableId != UserList ==> source.index < |sourceUsers|
  {
    var fromList := if source.droppableId == UserList then userList else sourceUsers;
    if UserDropRefused(destination, destinationUsers, MovingName(fromList, draggableId)) then []
    else
      var post := if source.droppableId == UserList && destination.droppableId != UserList
        then [PostUser(destination.droppableId, userList[source.index])] else [];
      var move := if destination.droppableId != source.droppableId && source.droppableId != UserList
        then
          var moved := sourceUsers[source.index];
          (if destination.droppableId != UserList
           then [SetUsers(destination.droppableId, Insert(destinationUsers, destination.index, moved))]
           else [DeleteUser(moved.userid)])
          + [SetUsers(source.droppableId, Remove(sourceUsers, source.index))]
        else [];
      post + move
  }

  predicate NamesDistinct(users: seq<User>) {
    forall i, j :: 0 <= i < j < |users| ==> users[i].name != users[j].name
  }

  /** Splicing in a user whose name is not yet on a list with distinct
      names keeps the names distinct. */
  lemma InsertKeepsNamesDistinct(users: seq<User>, i: nat, u: User)
    requires NamesDistinct(users)
    requires forall j :: 0 <= j < |users| ==> users[j].name != u.name
    ensures NamesDistinct(Insert(users, i, u))
  {
    var r := Insert(users, i, u);
    var k := Clamp(i, |users|);
    forall a, b | 0 <= a < b < |r|
      ensures r[a].name != r[b].name
    {
      if a < k && b > k {
        assert r[a] == users[a] && r[b] == users[b - 1];
      } else if a > k {
        assert r[a] == users[a - 1] && r[b] == users[b - 1];
      }
    }
  }

  /** An accepted drop onto a task keeps the task within three users with
      distinct names: a task-to-task move sends a destination list of at
      most three users, all named differently, and a drop from the user
      list only adds a user to a task with fewer than three users, none of
      them with that name. This holds when the dragged magnet is the one at
      the source index and no user id appears twice in its list. */
  lemma AcceptedUserDrop(source: Location, destination: Location, draggableId: string,
                         userList: seq<User>, sourceUsers: seq<User>, destinationUsers: seq<User>)
    requires source.droppableId == UserList ==> source.index < |userList|
    requires source.droppableId != UserList ==> source.index < |sourceUsers|
    requires NamesDistinct(destinationUsers)
    requires var from := if source.droppableId == UserList then userList else sourceUsers;
      && from[source.index].userid == draggableId
      && forall i, j :: 0 <= i < j < |from| ==> from[i].userid != from[j].userid
    ensures forall r :: (r in UserDrop(source, destination, draggableId, userList, sourceUsers, destinationUsers)
                         && r.SetUsers? && r.ticket == destination.droppableId && r.ticket != source.droppableId) ==>
        |r.users| <= MaxUsersPerTask && NamesDistinct(r.users)
    ensures forall r :: (r in UserDrop(source, destination, draggableId, userList, sourceUsers, destinationUsers)
                         && r.PostUser?) ==>
        && r.ticket == destination.droppableId
        && |destinationUsers| < MaxUsersPerTask
        && forall j :: 0 <= j < |destinationUsers| ==> destinationUsers[j].name != r.user.name
  {
    var from := if source.droppableId == UserList then userList else sourceUsers;
    var name := MovingName(from, draggableId);
    if !UserDropRefused(destination, destinationUsers, name) {
      if name.Some? {
        var j :| 0 <= j < |from| && from[j].userid == draggableId && from[j].name == name.value;
        assert j == source.index;
      }
      if destination.droppableId != source.droppableId && source.droppableId != UserList && destination.droppableId != UserList {
        InsertKeepsNamesDistinct(destinationUsers, destination.index, sourceUsers[source.index]);
      }
    }
  }

  /** A refused user drop (onto a task with three users already, or with a
      user of the moving user's name) sends no request at all. */
  lemma RefusedUserDrop(source: Location, destination: Location, draggableId: string,
                        userList: seq<User>, sourceUsers: seq<User>, destinationUsers: seq<User>)
    requires source.droppableId == UserList ==> source.index < |userList|
    requires source.droppableId != UserList ==> source.index < |sourceUsers|
    requires UserDropRefused(destination, destinationUsers,
      MovingName(if source.droppableId == UserList then userList else sourceUsers, draggableId))
    ensures UserDrop(source, destination, draggableId, userList, sourceUsers, destinationUsers) == []
  {
  }

  /** Dragging a user magnet within one task, or within the user list,
      asks nothing of the server. */
  lemma SameDroppableUserDrop(source: Location, destination: Location, draggableId: string,
                              userList: seq<User>, sourceUsers: seq<User>, destinationUsers: seq<User>)
    requires source.droppableId == UserList ==> source.index < |userList|
    requires source.droppableId != UserList ==> source.index < |sourceUsers|
    requires destination.droppableId == source.droppableId
    ensures UserDrop(source, destination, draggableId, userList, sourceUsers, destinationUsers) == []
  {
  }

  /** What one drop sends: task-list updates and user requests. */
  datatype Sent<T> = Sent(tasks: seq<TaskUpdate<T>>, users: seq<Request>)

  /** The drop handler as a whole: an ignored drop sends nothing; a task
      drag sends only task lists and a user drag only user requests; a drag
      of any other type sends nothing. The lists are the page's cached
      lists for the droppables involved. */
  function OnDragEnd<T>(dragType: string, source: Location, destination: Option<Location>, draggableId: string,
                        sourceTasks: seq<T>, destinationTasks: seq<T>,
                        userList: seq<User>, sourceUsers: seq<User>, destinationUsers: seq<User>): (r: Sent<T>)
    requires !IgnoredDrop(source, destination) && dragType == "task" ==>
      if destination.value.droppableId == source.droppableId then source.index < |destinationTasks|
      else source.index < |sourceTasks|
    requires !IgnoredDrop(source, destination) && dragType == "user" ==>
      if source.droppableId == UserList then source.index < |userList| else source.index < |sourceUsers|
    ensures IgnoredDrop(source, destination) ==> r == Sent([], [])
    ensures r.tasks != [] ==> dragType == "task" && r.users == []
    ensures r.users != [] ==> dragType == "user" && r.tasks == []
    ensures dragType == "task" && !IgnoredDrop(source, destination) ==> r.tasks != []
  {
    if IgnoredDrop(source, destination) then Sent([], [])
    else if dragType == "task" then Sent(TaskDrop(source, destination.value, sourceTasks, destinationTasks), [])
    else if dragType == "user" then
      Sent([], UserDrop(source, destination.value, draggableId, userList, sourceUsers, destinationUsers))
    else Sent([], [])
  }
}
