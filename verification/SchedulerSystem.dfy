/** The scheduling code as it runs: scheduler, queues, contexts and timer handler changed in place. */
module SchedulerSystem {
  import opened Scheduler
  import opened Sequences

  class System {
    var taskList: seq<nat>
    var cur: nat
    var state: map<nat, Flag>
    var queue: map<Flag, seq<nat>>
    var saved: map<nat, Context>
    var frame: Context
    var count: nat
    var expired: nat

    ghost function Model(): Machine
      reads this
    {
      Machine(taskList, cur, state, queue, saved, frame, count, expired)
    }

    method ChangeTaskState(t: nat, f: Flag)
      requires t in state && state[t] in queue && f in queue
      modifies this`state, this`queue
      ensures Model() == ChangeState(old(Model()), t, f)
    {
      queue := queue[state[t] := Without(queue[state[t]], t)];
      state := state[t := f];
      queue := queue[state[t] := queue[state[t]] + [t]];
    }

    /** The cursor moves to the next task, to the first one after the last; the old one is returned. */
    method Next() returns (prev: nat)
      requires cur in taskList
      modifies this`cur
      ensures prev == old(cur) && cur == Successor(taskList, prev)
    {
      prev := cur;
      var i := IndexOf(taskList, cur) + 1;
      if i == |taskList| {
        i := 0;
      }
      cur := taskList[i];
    }

    /** Saves the interrupted frame for the task that stops and installs the other one's. */
    method SwitchToInIrq(prev: nat, after: nat)
      requires prev in state && after in state && state[prev] in queue && state[after] in queue
      requires Ready in queue && Running in queue && after in saved
      modifies this`state, this`queue, this`saved, this`frame
      ensures Model() == SwitchTo(old(Model()), prev, after)
    {
      ChangeTaskState(prev, Ready);
      ChangeTaskState(after, Running);
      saved := saved[prev := frame];
      frame := saved[after];
    }

    method SetExpired(c: nat)
      modifies this`expired
      ensures expired == count + c
    {
      expired := count + c;
    }

    /** The quantum is over. */
    method Tick()
      requires Consistent(Model())
      modifies this
      ensures Model() == Rotate(old(Model()))
    {
      SwitchKeepsQueues(Model(), Successor(taskList, cur));
      var prev := Next();
      SwitchToInIrq(prev, cur);
      SetExpired(QUANTUM);
    }

    /** The running task gives up the CPU: the timer is set first, then the tasks switch. */
    method YieldCpu()
      requires Consistent(Model())
      modifies this
      ensures Model() == Rotate(old(Model()))
    {
      SwitchKeepsQueues(Model(), Successor(taskList, cur));
      SetExpired(QUANTUM);
      var prev := Next();
      SwitchToInIrq(prev, cur);
    }

    /** The timer interrupt. */
    method TopHalf()
      requires Inv(Model())
      modifies this
      ensures Model() == Step(old(Model()), Interrupt)
    {
      count := count + 1;
      if expired <= count {
        Tick();
      }
    }

    method EnqueueTask(t: nat)
      requires Inv(Model()) && Legal(Model(), Enqueue(t))
      modifies this`taskList
      ensures Model() == Step(old(Model()), Enqueue(t))
    {
      taskList := [t] + taskList;
    }

    method DequeueTask(t: nat)
      requires Inv(Model()) && Legal(Model(), Dequeue(t))
      modifies this`taskList
      ensures Model() == Step(old(Model()), Dequeue(t))
    {
      taskList := Without(taskList, t);
    }

    method BuildTask(t: nat, context: Context)
      requires Inv(Model()) && Legal(Model(), Create(t, context))
      modifies this`state, this`queue, this`saved
      ensures Model() == Step(old(Model()), Create(t, context))
    {
      state := state[t := Created];
      queue := queue[Created := queue[Created] + [t]];
      saved := saved[t := context];
    }
  }
}
