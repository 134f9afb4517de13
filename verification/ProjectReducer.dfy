/**
 The project reducer as it runs: clone the caller's snapshot, update the clone in place,
 and hand it out only when the event is accepted. Every list is a backing array with a
 length, so a list that the clone does not copy would be written under the caller's eyes.
 */
module ProjectReducer {
  import opened ProjectModel
  import opened ProjectInvariants
  import opened ProjectLegality
  import opened Options
  import opened Slices

  /** The current assignment is held by reference. */
  class AssignmentCell {
    var value: Assignment

    constructor (value: Assignment)
      ensures this.value == value
    {
      this.value := value;
    }
  }

  class SnapshotRef {
    // the project record; its list of current resources is `current`
    var project: Project
    var current: Slice<Resource>
    var assignment: AssignmentCell?
    var resources: Slice<ResourceRow>
    var claims: Slice<ClaimRow>
    var assignments: Slice<AssignmentRow>
    var threads: Slice<ThreadRow>
    var acceptances: Slice<Acceptance>
    var dispatches: Slice<Dispatch>

    // what the fields amount to, and the objects they are made of
    ghost var value: Snapshot
    ghost var repr: set<object>

    ghost predicate Valid()
      reads this, repr
    {
      && this in repr && current.data in repr && resources.data in repr && claims.data in repr
      && assignments.data in repr && threads.data in repr && acceptances.data in repr && dispatches.data in repr
      && (assignment != null ==> assignment in repr)
      && project.resources == []
      && current.Fits() && resources.Fits() && claims.Fits() && assignments.Fits()
      && threads.Fits() && acceptances.Fits() && dispatches.Fits()
      && value == Snapshot(
           project.(resources := current.Items()), if assignment == null then None else Some(assignment.value),
           resources.Items(), claims.Items(), assignments.Items(), threads.Items(),
           acceptances.Items(), dispatches.Items())
    }

    /** A snapshot over the given lists, without an assignment. */
    constructor (project: Project, current: Slice<Resource>, resources: Slice<ResourceRow>, claims: Slice<ClaimRow>,
                 assignments: Slice<AssignmentRow>, threads: Slice<ThreadRow>, acceptances: Slice<Acceptance>,
                 dispatches: Slice<Dispatch>, ghost lists: set<object>)
      requires current.data in lists && resources.data in lists && claims.data in lists && assignments.data in lists
      requires threads.data in lists && acceptances.data in lists && dispatches.data in lists
      requires project.resources == []
      requires current.Fits() && resources.Fits() && claims.Fits() && assignments.Fits()
      requires threads.Fits() && acceptances.Fits() && dispatches.Fits()
      ensures Valid() && repr == {this} + lists
      ensures value == Snapshot(project.(resources := current.Items()), None, resources.Items(), claims.Items(),
                                assignments.Items(), threads.Items(), acceptances.Items(), dispatches.Items())
    {
      this.project, this.current, this.assignment := project, current, null;
      this.resources, this.claims, this.assignments := resources, claims, assignments;
      this.threads, this.acceptances, this.dispatches := threads, acceptances, dispatches;
      repr := {this} + lists;
      value := Snapshot(project.(resources := current.Items()), None, resources.Items(), claims.Items(),
                        assignments.Items(), threads.Items(), acceptances.Items(), dispatches.Items());
    }

    /** A copy that shares nothing: no object of it is one of the original's. */
    method Clone() returns (copy: SnapshotRef)
      requires Valid()
      ensures copy.Valid() && fresh(copy.repr) && copy.value == value
    {
      ghost var lists;
      copy, lists := CloneLists();
      if assignment != null {
        copy.StartAssignment(assignment.value);
      }
    }

    method CloneLists() returns (copy: SnapshotRef, ghost lists: set<object>)
      requires Valid()
      ensures copy.Valid() && copy.value == value.(assignment := None)
      ensures fresh(copy) && fresh(lists) && copy.repr == {copy} + lists
    {
      var c, r, l, first := CopyResources();
      var a, t, second := CopyWork();
      var m, d, third := CopyMessages();
      lists := first + second + third;
      assert fresh(lists);
      copy := new SnapshotRef(project, c, r, l, a, t, m, d, lists);
    }

    method CopyResources() returns (c: Slice<Resource>, r: Slice<ResourceRow>, l: Slice<ClaimRow>, ghost lists: set<object>)
      requires Valid()
      ensures fresh(lists)
      ensures c.data in lists && c.Fits() && c.Items() == value.project.resources
      ensures r.data in lists && r.Fits() && r.Items() == value.resources
      ensures l.data in lists && l.Fits() && l.Items() == value.claims
    {
      c := CopyOf(current);
      r := CopyOf(resources);
      l := CopyOf(claims);
      lists := {c.data as object, r.data, l.data};
    }

    method CopyWork() returns (a: Slice<AssignmentRow>, t: Slice<ThreadRow>, ghost lists: set<object>)
      requires Valid()
      ensures fresh(lists)
      ensures a.data in lists && a.Fits() && a.Items() == value.assignments
      ensures t.data in lists && t.Fits() && t.Items() == value.threads
    {
      a := CopyOf(assignments);
      t := CopyOf(threads);
      lists := {a.data as object, t.data};
    }

    method CopyMessages() returns (m: Slice<Acceptance>, d: Slice<Dispatch>, ghost lists: set<object>)
      requires Valid()
      ensures fresh(lists)
      ensures m.data in lists && m.Fits() && m.Items() == value.acceptances
      ensures d.data in lists && d.Fits() && d.Items() == value.dispatches
    {
      m := CopyOf(acceptances);
      d := CopyOf(dispatches);
      lists := {m.data as object, d.data};
    }

    // ------------------------------------------------------------------- writes in place

    method AppendCurrent(row: Resource)
      requires Valid()
      modifies repr
      ensures Valid() && fresh(repr - old(repr))
      ensures value == old(value).(project := old(value).project.(resources := old(value).project.resources + [row]))
    {
      current := Append(current, row);
      value, repr := value.(project := value.project.(resources := value.project.resources + [row])), repr + {current.data};
    }

    method AppendRow(row: ResourceRow)
      requires Valid()
      modifies repr
      ensures Valid() && fresh(repr - old(repr))
      ensures value == old(value).(resources := old(value).resources + [row])
    {
      resources := Append(resources, row);
      value, repr := value.(resources := value.resources + [row]), repr + {resources.data};
    }

    method AppendClaim(row: ClaimRow)
      requires Valid()
      modifies repr
      ensures Valid() && fresh(repr - old(repr))
      ensures value == old(value).(claims := old(value).claims + [row])
    {
      claims := Append(claims, row);
      value, repr := value.(claims := value.claims + [row]), repr + {claims.data};
    }

    method AppendEpoch(row: AssignmentRow)
      requires Valid()
      modifies repr
      ensures Valid() && fresh(repr - old(repr))
      ensures value == old(value).(assignments := old(value).assignments + [row])
    {
      assignments := Append(assignments, row);
      value, repr := value.(assignments := value.assignments + [row]), repr + {assignments.data};
    }

    method AppendThread(row: ThreadRow)
      requires Valid()
      modifies repr
      ensures Valid() && fresh(repr - old(repr))
      ensures value == old(value).(threads := old(value).threads + [row])
    {
      threads := Append(threads, row);
      value, repr := value.(threads := value.threads + [row]), repr + {threads.data};
    }

    method AppendAcceptance(row: Acceptance)
      requires Valid()
      modifies repr
      ensures Valid() && fresh(repr - old(repr))
      ensures value == old(value).(acceptances := old(value).acceptances + [row])
    {
      acceptances := Append(acceptances, row);
      value, repr := value.(acceptances := value.acceptances + [row]), repr + {acceptances.data};
    }

    method AppendDispatch(row: Dispatch)
      requires Valid()
      modifies repr
      ensures Valid() && fresh(repr - old(repr))
      ensures value == old(value).(dispatches := old(value).dispatches + [row])
    {
      dispatches := Append(dispatches, row);
      value, repr := value.(dispatches := value.dispatches + [row]), repr + {dispatches.data};
    }

    method SetRow(i: nat, row: ResourceRow)
      requires Valid() && i < resources.len
      modifies repr
      ensures Valid() && fresh(repr - old(repr))
      ensures value == old(value).(resources := old(value).resources[i := row])
    {
      resources.data[i] := row;
      value := value.(resources := value.resources[i := row]);
    }

    method SetCurrent(i: nat, r: Resource)
      requires Valid() && i < current.len
      modifies repr
      ensures Valid() && fresh(repr - old(repr))
      ensures value == old(value).(project := old(value).project.(resources := old(value).project.resources[i := r]))
    {
      current.data[i] := r;
      value := value.(project := value.project.(resources := value.project.resources[i := r]));
    }

    /** Shift the later resources down. */
    method DropCurrent(i: nat)
      requires Valid() && i < current.len
      modifies repr
      ensures Valid() && fresh(repr - old(repr))
      ensures value == old(value).(project := old(value).project.(resources := RemoveAt(old(value).project.resources, i)))
    {
      current := Drop(current, i);
      value := value.(project := value.project.(resources := RemoveAt(value.project.resources, i)));
    }

    /** Overwrite the last epoch row. */
    method SetEpoch(row: AssignmentRow)
      requires Valid() && assignments.len > 0
      modifies repr
      ensures Valid() && fresh(repr - old(repr))
      ensures value == old(value).(assignments := old(value).assignments[|old(value).assignments| - 1 := row])
    {
      assignments.data[assignments.len - 1] := row;
      value := value.(assignments := value.assignments[|value.assignments| - 1 := row]);
    }

    /** Overwrite the current assignment through its reference. */
    method SetAssignment(a: Assignment)
      requires Valid() && assignment != null
      modifies repr
      ensures Valid() && fresh(repr - old(repr))
      ensures value == old(value).(assignment := Some(a))
    {
      assignment.value := a;
      value := value.(assignment := Some(a));
    }

    method ClearAssignment()
      requires Valid()
      modifies repr
      ensures Valid() && fresh(repr - old(repr))
      ensures value == old(value).(assignment := None)
    {
      assignment := null;
      value := value.(assignment := None);
    }

    method StartAssignment(a: Assignment)
      requires Valid()
      modifies repr
      ensures Valid() && fresh(repr - old(repr))
      ensures value == old(value).(assignment := Some(a))
    {
      assignment := new AssignmentCell(a);
      value, repr := value.(assignment := Some(a)), repr + {assignment};
    }

    /** Overwrite the record; the list of resources stays. */
    method SetProject(p: Project)
      requires Valid() && p.resources == []
      modifies repr
      ensures Valid() && fresh(repr - old(repr))
      ensures value == old(value).(project := p.(resources := old(value).project.resources))
    {
      project := p;
      value := value.(project := p.(resources := value.project.resources));
    }

    method ForgetCurrent()
      requires Valid()
      modifies repr
      ensures Valid() && fresh(repr - old(repr))
      ensures value == old(value).(project := old(value).project.(resources := []))
    {
      current := NoItems();
      value, repr := value.(project := value.project.(resources := [])), repr + {current.data};
    }

    /** A new record with no resources and no assignment. */
    method Found(p: Project)
      requires Valid() && p.resources == []
      modifies repr
      ensures Valid() && fresh(repr - old(repr))
      ensures value == old(value).(project := p, assignment := None)
    {
      SetProject(p);
      ForgetCurrent();
      ClearAssignment();
    }

    method ReleaseClaims(only: Option<string>, e: Event)
      requires Valid()
      modifies repr
      ensures Valid() && fresh(repr - old(repr))
      ensures value == old(value).(claims := Release(old(value).claims, only, e))
    {
      ReleaseRows(claims, only, e);
      value := value.(claims := Release(value.claims, only, e));
    }

    method ClaimCurrent(e: Event)
      requires Valid()
      modifies repr
      ensures Valid() && fresh(repr - old(repr))
      ensures value == old(value).(claims := old(value).claims + ClaimAll(old(value).project.resources, e))
    {
      ghost var all := ClaimAll(value.project.resources, e);
      for i := 0 to current.len
        invariant Valid() && fresh(repr - old(repr))
        invariant value == old(value).(claims := old(value).claims + all[..i])
      {
        AppendClaim(ClaimRow(current.data[i].id, e.id, "", e.createdAt, 0));
        assert all[..i + 1] == all[..i] + [all[i]];
      }
      assert all[..|all|] == all;
    }

    // ------------------------------------------------------------------------ operations

    /** A new row for the resource and, when the project is open, a claim on it. */
    method Enroll(r: Resource, claimed: bool, e: Event)
      requires Valid()
      modifies repr
      ensures Valid() && fresh(repr - old(repr))
      ensures value == Enrolled(old(value), r, claimed, e)
    {
      AppendRow(ResourceRow(r, e.id, "", e.createdAt, 0));
      if claimed {
        AppendClaim(ClaimRow(r.id, e.id, "", e.createdAt, 0));
      }
    }

    /** Retire the resource's row and release its claims. */
    method Retire(id: string, e: Event)
      requires Valid() && FindLiveRow(value.resources, id) >= 0
      modifies repr
      ensures Valid() && fresh(repr - old(repr))
      ensures value == Retired(old(value), id, e)
    {
      var row := LocateLiveRow(resources, id);
      SetRow(row, resources.data[row].(removedBy := e.id, removedAt := e.createdAt));
      ReleaseClaims(Some(id), e);
    }

    method Adopt(r: Resource, claimed: bool, e: Event)
      requires Valid()
      modifies repr
      ensures Valid() && fresh(repr - old(repr))
      ensures value == Enrolled(WithCurrent(old(value), old(value).project.resources + [r]), r, claimed, e)
    {
      AppendCurrent(r);
      Enroll(r, claimed, e);
    }

    method Withdraw(index: nat, id: string, e: Event)
      requires Valid() && index < current.len && FindLiveRow(value.resources, id) >= 0
      modifies repr
      ensures Valid() && fresh(repr - old(repr))
      ensures value == Retired(WithCurrent(old(value), RemoveAt(old(value).project.resources, index)), id, e)
    {
      DropCurrent(index);
      Retire(id, e);
    }

    method Exchange(index: nat, id: string, r: Resource, claimed: bool, e: Event)
      requires Valid() && index < current.len && FindLiveRow(value.resources, id) >= 0
      modifies repr
      ensures Valid() && fresh(repr - old(repr))
      ensures value == Enrolled(Retired(WithCurrent(old(value), old(value).project.resources[index := r]), id, e),
                                r, claimed, e)
    {
      SetCurrent(index, r);
      Retire(id, e);
      Enroll(r, claimed, e);
    }

    method Create(e: Event) returns (ok: bool)
      requires Valid() && e.data.Created?
      modifies repr
      ensures Valid() && fresh(repr - old(repr))
      ensures ok <==> ProjectModel.Create(old(value), e).Accept?
      ensures ok ==> value == ProjectModel.Create(old(value), e).next
    {
      var d := e.data;
      if project.id != "" || e.previous != "" {
        return false;
      }
      if e.project == "" || e.home == "" || d.mailbox == "" || d.name == "" {
        return false;
      }
      Establish(Project(e.project, e.home, d.mailbox, d.predecessor, d.name, d.brief,
                        if d.open then Open else Closed, false, "", [], "", e.id, e.createdAt, e.createdAt),
                d.initial, d.open, e);
      if current.len > 0 {
        if d.primaryPath < 0 || d.primaryPath >= current.len {
          return false;
        }
        SetProject(project.(primary := current.data[d.primaryPath].id));
      }
      return true;
    }

    method Establish(p: Project, initial: seq<CreatedResource>, open: bool, e: Event)
      requires Valid() && p.resources == []
      modifies repr
      ensures Valid() && fresh(repr - old(repr))
      ensures value == Stocked(old(value).(project := p, assignment := None), NewResources(initial, e.home), open, e)
    {
      Found(p);
      AddInitial(initial, open, e);
    }

    method AddInitial(initial: seq<CreatedResource>, open: bool, e: Event)
      requires Valid() && value.project.resources == []
      modifies repr
      ensures Valid() && fresh(repr - old(repr))
      ensures value == Stocked(old(value), NewResources(initial, e.home), open, e)
    {
      ghost var all := NewResources(initial, e.home);
      assert Stocked(value, all[..0], open, e) == value;
      for i := 0 to |initial|
        invariant Valid() && fresh(repr - old(repr))
        invariant value == Stocked(old(value), all[..i], open, e)
      {
        var resource := NewResource(initial[i], e.home);
        Adopt(resource, open, e);
        StockedNext(old(value), all, i, open, e);
      }
      assert all[..|all|] == all;
    }

    method AddResource(e: Event) returns (ok: bool)
      requires Valid() && e.data.ResourceAdded?
      modifies repr
      ensures Valid() && fresh(repr - old(repr))
      ensures ok <==> ProjectModel.AddResource(old(value), e).Accept?
      ensures ok ==> value == ProjectModel.AddResource(old(value), e).next
    {
      var r := e.data.added;
      var index := LocateResource(current, r.id);
      if r.id == "" || r.kind == "" || r.canonical == "" || index >= 0 {
        return false;
      }
      Adopt(NewResource(r, project.home), project.lifecycle == Open, e);
      if e.data.makePrimary {
        SetProject(project.(primary := r.id));
      }
      return true;
    }

    method RemoveResource(e: Event) returns (ok: bool)
      requires Valid() && e.data.ResourceRemoved? && !ProjectModel.RemoveResource(value, e).Panic?
      modifies repr
      ensures Valid() && fresh(repr - old(repr))
      ensures ok <==> ProjectModel.RemoveResource(old(value), e).Accept?
      ensures ok ==> value == ProjectModel.RemoveResource(old(value), e).next
    {
      var id := e.data.removedId;
      var index := LocateResource(current, id);
      if index < 0 {
        return false;
      }
      Withdraw(index, id, e);
      if project.primary == id {
        SetProject(project.(primary := if current.len > 0 then current.data[0].id else ""));
      }
      return true;
    }

    method ReplaceResource(e: Event) returns (ok: bool)
      requires Valid() && e.data.ResourceReplaced? && !ProjectModel.ReplaceResource(value, e).Panic?
      modifies repr
      ensures Valid() && fresh(repr - old(repr))
      ensures ok <==> ProjectModel.ReplaceResource(old(value), e).Accept?
      ensures ok ==> value == ProjectModel.ReplaceResource(old(value), e).next
    {
      var index := LocateResource(current, e.data.oldId);
      var clash := LocateResource(current, e.data.newId);
      if index < 0 || e.data.newId == "" || clash >= 0 {
        return false;
      }
      Replace(index, e);
      return true;
    }

    method Replace(index: nat, e: Event)
      requires Valid() && e.data.ResourceReplaced? && ProjectModel.ReplaceResource(value, e).Accept?
      requires index == FindResource(value.project.resources, e.data.oldId)
      modifies repr
      ensures Valid() && fresh(repr - old(repr))
      ensures value == ProjectModel.ReplaceResource(old(value), e).next
    {
      var d := e.data;
      Exchange(index, d.oldId, Resource(d.newId, "path", project.home, d.newDisplay, d.newCanonical,
                                        d.newHealth, d.newDetails, d.newCheckedAt), project.lifecycle == Open, e);
      if project.primary == d.oldId {
        SetProject(project.(primary := d.newId));
      }
    }

    method CheckResource(e: Event) returns (ok: bool)
      requires Valid() && e.data.ResourceHealth? && !ProjectModel.CheckResource(value, e).Panic?
      modifies repr
      ensures Valid() && fresh(repr - old(repr))
      ensures ok <==> ProjectModel.CheckResource(old(value), e).Accept?
      ensures ok ==> value == ProjectModel.CheckResource(old(value), e).next
    {
      var d := e.data;
      var index := LocateResource(current, d.checkedId);
      if index < 0 {
        return false;
      }
      var resource := current.data[index].(
        health := d.checkedHealth, details := d.checkedDetails, checkedAt := d.healthCheckedAt);
      SetCurrent(index, resource);
      var row := LocateLiveRow(resources, d.checkedId);
      SetRow(row, resources.data[row].(resource := resource));
      return true;
    }

    method FinishClosing(e: Event) returns (ok: bool)
      requires Valid() && e.data.ClosedDown? && !ProjectModel.FinishClosing(value, e).Panic?
      modifies repr
      ensures Valid() && fresh(repr - old(repr))
      ensures ok <==> ProjectModel.FinishClosing(old(value), e).Accept?
      ensures ok ==> value == ProjectModel.FinishClosing(old(value), e).next
    {
      if project.lifecycle != Closing {
        return false;
      }
      if assignment != null {
        EndCurrent(e, e.data.forced);
      }
      CloseDown(e);
      return true;
    }

    method CloseDown(e: Event)
      requires Valid()
      modifies repr
      ensures Valid() && fresh(repr - old(repr))
      ensures value == old(value).(
                         project := old(value).project.(lifecycle := Closed),
                         claims := Release(old(value).claims, None, e))
    {
      SetProject(project.(lifecycle := Closed));
      ReleaseClaims(None, e);
    }

    /** End the current assignment and its epoch, and let the project forget it. */
    method EndCurrent(e: Event, forced: bool)
      requires Valid() && assignment != null && !EndEpoch(value, e, forced).Panic?
      modifies repr
      ensures Valid() && fresh(repr - old(repr))
      ensures value == EndEpoch(old(value), e, forced).next
    {
      SetProject(project.(suggested := assignment.value.agent));
      EndLast(e, forced);
      ClearAssignment();
    }

    method EndLast(e: Event, forced: bool)
      requires Valid() && assignment != null && assignments.len > 0
      modifies repr
      ensures Valid() && fresh(repr - old(repr))
      ensures var ended := old(value).assignment.value.(state := Ended, endedAt := Some(e.createdAt));
              var last := |old(value).assignments| - 1;
              value == old(value).(
                         assignment := Some(ended),
                         assignments := old(value).assignments[last :=
                           old(value).assignments[last].(assignment := ended, endedBy := e.id, forced := forced)])
    {
      var ended := assignment.value.(state := Ended, endedAt := Some(e.createdAt));
      SetAssignment(ended);
      SetEpoch(assignments.data[assignments.len - 1].(assignment := ended, endedBy := e.id, forced := forced));
    }

    method StartEpoch(a: Assignment, e: Event)
      requires Valid()
      modifies repr
      ensures Valid() && fresh(repr - old(repr))
      ensures value == old(value).(
                         assignment := Some(a),
                         assignments := old(value).assignments + [AssignmentRow(a, e.id, "", false)])
    {
      StartAssignment(a);
      AppendEpoch(AssignmentRow(a, e.id, "", false));
    }

    method Configure(e: Event) returns (ok: bool)
      requires Valid() && e.data.AssignmentConfiguring?
      modifies repr
      ensures Valid() && fresh(repr - old(repr))
      ensures ok <==> ProjectModel.Configure(old(value), e).Accept?
      ensures ok ==> value == ProjectModel.Configure(old(value), e).next
    {
      if project.lifecycle != Open || assignment != null || e.data.assignmentId == "" || e.data.agent == "" {
        return false;
      }
      StartEpoch(Assignment(e.data.assignmentId, e.data.agent, Configuring, "", e.createdAt, None), e);
      SetProject(project.(suggested := ""));
      return true;
    }

    /** Change the current assignment and copy it into the last epoch row. */
    method UpdateCurrent(a: Assignment)
      requires Valid() && assignment != null && assignments.len > 0
      modifies repr
      ensures Valid() && fresh(repr - old(repr))
      ensures value == UpdateEpoch(old(value), a).next
    {
      SetAssignment(a);
      SetEpoch(assignments.data[assignments.len - 1].(assignment := a));
    }

    /** May leave the draft half-updated: the thread is checked after the assignment moved. */
    method MakeRunnable(e: Event) returns (ok: bool)
      requires Valid() && e.data.AssignmentRunnable? && !ProjectModel.MakeRunnable(value, e).Panic?
      modifies repr
      ensures Valid() && fresh(repr - old(repr))
      ensures ok <==> ProjectModel.MakeRunnable(old(value), e).Accept?
      ensures ok ==> value == ProjectModel.MakeRunnable(old(value), e).next
    {
      var d := e.data;
      if assignment == null || assignment.value.id != d.runnableId || assignment.value.agent != d.runnableAgent ||
         assignment.value.state != Configuring || d.threadId == ""
      {
        return false;
      }
      UpdateCurrent(assignment.value.(state := Runnable, thread := d.threadId));
      if d.thread.Some? {
        var t := d.thread.value;
        if t.id != d.threadId || t.harness == "" || t.external == "" || t.directory == "" {
          return false;
        }
        var known := FindThread(threads, t.id, project.id, d.runnableAgent);
        if !known {
          AppendThread(ThreadRow(t.id, project.id, d.runnableAgent, t.harness, t.external, t.directory,
                                 if t.createdAt == 0 then e.createdAt else t.createdAt));
        }
      }
      return true;
    }

    method Block(e: Event) returns (ok: bool)
      requires Valid() && e.data.AssignmentBlocked? && !ProjectModel.Block(value, e).Panic?
      modifies repr
      ensures Valid() && fresh(repr - old(repr))
      ensures ok <==> ProjectModel.Block(old(value), e).Accept?
      ensures ok ==> value == ProjectModel.Block(old(value), e).next
    {
      if assignment == null || assignment.value.id != e.data.blockedId ||
         assignment.value.agent != e.data.blockedAgent || assignment.value.state == Blocked
      {
        return false;
      }
      UpdateCurrent(assignment.value.(state := Blocked));
      return true;
    }

    method EndAssignment(e: Event) returns (ok: bool)
      requires Valid() && e.data.AssignmentEnded? && !ProjectModel.EndAssignment(value, e).Panic?
      modifies repr
      ensures Valid() && fresh(repr - old(repr))
      ensures ok <==> ProjectModel.EndAssignment(old(value), e).Accept?
      ensures ok ==> value == ProjectModel.EndAssignment(old(value), e).next
    {
      if assignment == null || assignment.value.id != e.data.endedId || assignment.value.agent != e.data.endedAgent {
        return false;
      }
      EndCurrent(e, e.data.endForced);
      return true;
    }

    method AcceptMessage(e: Event) returns (ok: bool)
      requires Valid() && e.data.MessageAccepted?
      modifies repr
      ensures Valid() && fresh(repr - old(repr))
      ensures ok <==> ProjectModel.AcceptMessage(old(value), e).Accept?
      ensures ok ==> value == ProjectModel.AcceptMessage(old(value), e).next
    {
      var d := e.data;
      if d.messageId == "" || d.messageEventId == "" || d.sequence != acceptances.len + 1 {
        return false;
      }
      var repeated := FindMessage(acceptances, d.messageId, d.messageEventId);
      if repeated {
        return false;
      }
      AppendAcceptance(Acceptance(d.messageId, d.messageEventId, d.sequence, e.id, e.createdAt));
      return true;
    }

    method DispatchMessage(e: Event) returns (ok: bool)
      requires Valid() && e.data.MessageDispatched?
      modifies repr
      ensures Valid() && fresh(repr - old(repr))
      ensures ok <==> ProjectModel.DispatchMessage(old(value), e).Accept?
      ensures ok ==> value == ProjectModel.DispatchMessage(old(value), e).next
    {
      var d := e.data;
      if d.dispatchedId == "" || d.toAssignment == "" || d.toThread == "" || d.toExternal == "" {
        return false;
      }
      var found := FindAccepted(acceptances, d.dispatchedId, d.dispatchedSequence);
      var repeated := FindDispatched(dispatches, d.dispatchedId, d.dispatchedSequence);
      if repeated || !found {
        return false;
      }
      AppendDispatch(Dispatch(d.dispatchedId, d.dispatchedSequence, d.toAssignment, d.toAgent,
                              d.toThread, d.toExternal, e.id, e.createdAt));
      return true;
    }

    method Reopen(e: Event) returns (ok: bool)
      requires Valid() && e.data.Opened?
      modifies repr
      ensures Valid() && fresh(repr - old(repr))
      ensures ok <==> ProjectModel.ApplyData(old(value), e).Accept?
      ensures ok ==> value == ProjectModel.ApplyData(old(value), e).next
    {
      if project.lifecycle != Closed || project.archived {
        return false;
      }
      SetProject(project.(lifecycle := Open));
      ClaimCurrent(e);
      return true;
    }

    /** The record that such an event asks for, or none when the event is refused. */
    method NextRecord(e: Event) returns (next: Option<Project>)
      requires Valid() && ChangesRecord(e.data)
      ensures next.Some? <==> ProjectModel.ApplyData(value, e).Accept?
      ensures next.Some? ==>
                && next.value.resources == []
                && ProjectModel.ApplyData(value, e).next ==
                     value.(project := next.value.(resources := value.project.resources))
    {
      match e.data
      case ClosingStarted =>
        next := if project.lifecycle != Open then None else Some(project.(lifecycle := Closing));
      case Archived =>
        next := if project.lifecycle != Closed || project.archived then None else Some(project.(archived := true));
      case Unarchived =>
        next := if project.lifecycle != Closed || !project.archived then None else Some(project.(archived := false));
      case MetadataUpdated(name, brief) =>
        next := if name == "" then None else Some(project.(name := name, brief := brief));
      case PrimaryResourceChanged(id) =>
        var index := LocateResource(current, id);
        next := if index < 0 then None else Some(project.(primary := id));
    }

    /** The cases that change only the project record. */
    method ChangeProject(e: Event) returns (ok: bool)
      requires Valid()
      requires ChangesRecord(e.data)
      modifies repr
      ensures Valid() && fresh(repr - old(repr))
      ensures ok <==> ProjectModel.ApplyData(old(value), e).Accept?
      ensures ok ==> value == ProjectModel.ApplyData(old(value), e).next
    {
      var next := NextRecord(e);
      if next.None? {
        return false;
      }
      SetProject(next.value);
      return true;
    }

    method ApplyResource(e: Event) returns (ok: bool)
      requires Valid() && !ProjectModel.ApplyData(value, e).Panic?
      requires ChangesResources(e.data)
      modifies repr
      ensures Valid() && fresh(repr - old(repr))
      ensures ok <==> ProjectModel.ApplyData(old(value), e).Accept?
      ensures ok ==> value == ProjectModel.ApplyData(old(value), e).next
    {
      match e.data
      case ResourceAdded(_, _) => ok := AddResource(e);
      case ResourceRemoved(_) => ok := RemoveResource(e);
      case ResourceReplaced(_, _, _, _, _, _, _) => ok := ReplaceResource(e);
      case ResourceHealth(_, _, _, _) => ok := CheckResource(e);
    }

    method ApplyAssignment(e: Event) returns (ok: bool)
      requires Valid() && !ProjectModel.ApplyData(value, e).Panic?
      requires ChangesAssignment(e.data)
      modifies repr
      ensures Valid() && fresh(repr - old(repr))
      ensures ok <==> ProjectModel.ApplyData(old(value), e).Accept?
      ensures ok ==> value == ProjectModel.ApplyData(old(value), e).next
    {
      match e.data
      case AssignmentConfiguring(_, _) => ok := Configure(e);
      case AssignmentRunnable(_, _, _, _) => ok := MakeRunnable(e);
      case AssignmentBlocked(_, _) => ok := Block(e);
      case AssignmentEnded(_, _, _) => ok := EndAssignment(e);
    }

    method ApplyData(e: Event) returns (ok: bool)
      requires Valid() && !ProjectModel.ApplyData(value, e).Panic?
      modifies repr
      ensures Valid() && fresh(repr - old(repr))
      ensures ok <==> ProjectModel.ApplyData(old(value), e).Accept?
      ensures ok ==> value == ProjectModel.ApplyData(old(value), e).next
    {
      if ChangesRecord(e.data) {
        ok := ChangeProject(e);
      } else if ChangesResources(e.data) {
        ok := ApplyResource(e);
      } else if ChangesAssignment(e.data) {
        ok := ApplyAssignment(e);
      } else if e.data.Opened? {
        ok := Reopen(e);
      } else if e.data.ClosedDown? {
        ok := FinishClosing(e);
      } else if e.data.MessageAccepted? {
        ok := AcceptMessage(e);
      } else if e.data.MessageDispatched? {
        ok := DispatchMessage(e);
      } else {
        ok := false;
      }
    }

    /** Apply the event to this very snapshot, which may be left half-updated. */
    method Update(e: Event) returns (ok: bool)
      requires Valid() && !e.data.Missing? && !ProjectModel.Apply(value, e).Panic?
      modifies repr
      ensures Valid() && fresh(repr - old(repr))
      ensures ok <==> ProjectModel.Apply(old(value), e).Accept?
      ensures ok ==> value == ProjectModel.Apply(old(value), e).next
    {
      if e.data.Created? {
        ok := Create(e);
        return;
      }
      if project.id == "" || e.project != project.id || e.home != project.home || e.previous != project.head {
        return false;
      }
      ok := ApplyData(e);
      if ok {
        SetProject(project.(head := e.id, updatedAt := e.createdAt));
      }
    }
  }

  // ----------------------------------------------------------------- kinds of operations

  predicate ChangesRecord(d: Data) {
    d.ClosingStarted? || d.Archived? || d.Unarchived? || d.MetadataUpdated? || d.PrimaryResourceChanged?
  }

  predicate ChangesResources(d: Data) {
    d.ResourceAdded? || d.ResourceRemoved? || d.ResourceReplaced? || d.ResourceHealth?
  }

  predicate ChangesAssignment(d: Data) {
    d.AssignmentConfiguring? || d.AssignmentRunnable? || d.AssignmentBlocked? || d.AssignmentEnded?
  }

  // --------------------------------------------------------------- effects on the value

  ghost function WithCurrent(s: Snapshot, rs: seq<Resource>): Snapshot {
    s.(project := s.project.(resources := rs))
  }

  ghost function Enrolled(s: Snapshot, r: Resource, claimed: bool, e: Event): Snapshot {
    s.(resources := s.resources + [NewRow(r, e)], claims := s.claims + if claimed then [Claim(r.id, e)] else [])
  }

  ghost function Retired(s: Snapshot, id: string, e: Event): Snapshot
    requires FindLiveRow(s.resources, id) >= 0
  {
    var row := FindLiveRow(s.resources, id);
    s.(resources := s.resources[row := s.resources[row].(removedBy := e.id, removedAt := e.createdAt)],
       claims := Release(s.claims, Some(id), e))
  }

  ghost function Stocked(s: Snapshot, rs: seq<Resource>, claimed: bool, e: Event): Snapshot {
    s.(project := s.project.(resources := rs),
       resources := s.resources + NewRows(rs, e),
       claims := s.claims + if claimed then ClaimAll(rs, e) else [])
  }

  lemma StockedNext(s: Snapshot, rs: seq<Resource>, i: nat, claimed: bool, e: Event)
    requires i < |rs|
    ensures var now := Stocked(s, rs[..i], claimed, e);
            Stocked(s, rs[..i + 1], claimed, e) ==
            Enrolled(WithCurrent(now, rs[..i] + [rs[i]]), rs[i], claimed, e)
  {
    assert rs[..i + 1] == rs[..i] + [rs[i]];
    assert NewRows(rs[..i + 1], e) == NewRows(rs[..i], e) + [NewRow(rs[i], e)];
    assert ClaimAll(rs[..i + 1], e) == ClaimAll(rs[..i], e) + [Claim(rs[i].id, e)];
  }

  // --------------------------------------------------------------------- on single lists

  method NoItems<T>() returns (s: Slice<T>)
    ensures fresh(s.data) && s.Fits() && s.len == 0
  {
    var data := new T[] [];
    s := Slice(data, 0);
  }

  method ReleaseRows(claims: Slice<ClaimRow>, only: Option<string>, e: Event)
    requires claims.Fits()
    modifies claims.data
    ensures claims.Items() == Release(old(claims.Items()), only, e)
  {
    ghost var start, all := claims.Items(), Release(claims.Items(), only, e);
    for i := 0 to claims.len
      invariant forall k | 0 <= k < i :: claims.data[k] == all[k]
      invariant forall k | i <= k < claims.len :: claims.data[k] == start[k]
    {
      var claim := claims.data[i];
      if Held(claim) && (only.None? || claim.resourceId == only.value) {
        claims.data[i] := claim.(releasedBy := e.id, releasedAt := e.createdAt);
      }
    }
  }

  method LocateResource(resources: Slice<Resource>, id: string) returns (index: int)
    requires resources.Fits()
    ensures index == FindResource(resources.Items(), id)
  {
    for i := 0 to resources.len
      invariant FindResource(resources.Items(), id) == FindResource(resources.Items(), id, i)
    {
      if resources.data[i].id == id {
        return i;
      }
    }
    return -1;
  }

  method LocateLiveRow(rows: Slice<ResourceRow>, id: string) returns (index: int)
    requires rows.Fits()
    ensures index == FindLiveRow(rows.Items(), id)
  {
    for i := 0 to rows.len
      invariant FindLiveRow(rows.Items(), id) == FindLiveRow(rows.Items(), id, i)
    {
      if rows.data[i].resource.id == id && IsLive(rows.data[i]) {
        return i;
      }
    }
    return -1;
  }

  method FindThread(threads: Slice<ThreadRow>, id: string, project: string, agent: string) returns (found: bool)
    requires threads.Fits()
    ensures found <==> ThreadKnown(threads.Items(), id, project, agent)
  {
    found := false;
    for i := 0 to threads.len
      invariant found <==> ThreadKnown(threads.data[..i], id, project, agent)
    {
      assert threads.data[..i + 1][..i] == threads.data[..i];
      if threads.data[i].id == id {
        found := threads.data[i].project == project && threads.data[i].agent == agent;
      }
    }
  }

  method FindMessage(acceptances: Slice<Acceptance>, messageId: string, messageEventId: string) returns (found: bool)
    requires acceptances.Fits()
    ensures found <==> AcceptedBefore(acceptances.Items(), messageId, messageEventId)
  {
    for i := 0 to acceptances.len
      invariant !AcceptedBefore(acceptances.data[..i], messageId, messageEventId)
    {
      if acceptances.data[i].messageId == messageId || acceptances.data[i].messageEventId == messageEventId {
        assert acceptances.Items()[i] == acceptances.data[i];
        return true;
      }
    }
    return false;
  }

  method FindAccepted(acceptances: Slice<Acceptance>, messageId: string, sequence: int) returns (found: bool)
    requires acceptances.Fits()
    ensures found <==> IsAccepted(acceptances.Items(), messageId, sequence)
  {
    found := false;
    for i := 0 to acceptances.len
      invariant found <==> IsAccepted(acceptances.data[..i], messageId, sequence)
    {
      var accepted := acceptances.data[i];
      assert forall k | 0 <= k < i :: acceptances.data[..i][k] == acceptances.data[..i + 1][k];
      assert acceptances.data[..i + 1][i] == accepted;
      if accepted.messageId == messageId && accepted.sequence == sequence {
        found := true;
      }
    }
  }

  method FindDispatched(dispatches: Slice<Dispatch>, messageId: string, sequence: int) returns (found: bool)
    requires dispatches.Fits()
    ensures found <==> DispatchedBefore(dispatches.Items(), messageId, sequence)
  {
    for i := 0 to dispatches.len
      invariant !DispatchedBefore(dispatches.data[..i], messageId, sequence)
    {
      if dispatches.data[i].messageId == messageId || dispatches.data[i].sequence == sequence {
        assert dispatches.Items()[i] == dispatches.data[i];
        return true;
      }
    }
    return false;
  }

  // ------------------------------------------------------------------------------ apply

  /** Apply one event to a clone. An accepted event yields a snapshot made of new objects
      only; a rejected one yields the caller's own. Nothing the caller's snapshot is made of
      is written, even when the clone is given up half-updated. */
  method Apply(current: SnapshotRef, e: Event) returns (next: SnapshotRef, ok: bool)
    requires current.Valid() && !ProjectModel.Apply(current.value, e).Panic?
    ensures unchanged(current) && unchanged(current.repr) && current.Valid()
    ensures ok <==> ProjectModel.Apply(current.value, e).Accept?
    ensures current.value == EMPTY || Sound(current.value) ==> (ok <==> Legal(current.value, e))
    ensures ok ==> fresh(next.repr) && next.Valid() && next.value == ProjectModel.Apply(current.value, e).next
    ensures !ok ==> next == current
  {
    Decided(current.value, e);
    next, ok := Reduce(current, e);
  }

  lemma Decided(s: Snapshot, e: Event)
    ensures s == EMPTY || Sound(s) ==> (ProjectModel.Apply(s, e).Accept? <==> Legal(s, e))
  {
    if s == EMPTY || Sound(s) {
      AcceptsExactly(s, e);
    }
  }

  method Reduce(current: SnapshotRef, e: Event) returns (next: SnapshotRef, ok: bool)
    requires current.Valid() && !ProjectModel.Apply(current.value, e).Panic?
    ensures unchanged(current) && unchanged(current.repr) && current.Valid()
    ensures ok <==> ProjectModel.Apply(current.value, e).Accept?
    ensures ok ==> fresh(next.repr) && next.Valid() && next.value == ProjectModel.Apply(current.value, e).next
    ensures !ok ==> next == current
  {
    if e.data.Missing? {
      return current, false;
    }
    var draft := current.Clone();
    ok := draft.Update(e);
    next := if ok then draft else current;
  }
}
