/** The static registry with the shared pointers of all its nodes, updated in place. */
module ClientRegistryClass {
  import opened Common
  import opened Registry

  class ClientRegistry {
    var table: map<Key, InstanceId>
    var refs: map<InstanceId, nat>
    var keyOf: map<InstanceId, Key>
    var held: map<HolderId, InstanceId>
    var next: InstanceId
    ghost var history: History

    function State(): RegistryState
      reads this
    {
      RegistryState(table, refs, keyOf, held, next)
    }

    /** The object is what its history makes it, so RegistrySafety(history) speaks about it. */
    ghost predicate Valid()
      reads this
    {
      State() == After(history)
    }

    constructor ()
      ensures Valid() && history == New
    {
      table, refs, keyOf, held, next := map[], map[], map[], map[], 0;
      history := New;
    }

    method AddReference(i: InstanceId)
      modifies this`refs
      ensures State() == AddRef(old(State()), i)
    {
      if i in refs {
        refs := refs[i := refs[i] + 1];
      }
    }

    method DropReference(i: InstanceId)
      modifies this`refs
      ensures State() == DropRef(old(State()), i)
    {
      if i in refs && refs[i] > 0 {
        refs := refs[i := refs[i] - 1];
      }
    }

    /** make_shared, before the result is assigned anywhere. */
    method MakeInstance(key: Key) returns (i: InstanceId)
      modifies this`refs, this`keyOf, this`next
      ensures i == old(next) && State() == Make(old(State()), key)
    {
      i := next;
      refs := refs[i := 0];
      keyOf := keyOf[i := key];
      next := next + 1;
    }

    /** client_instance_ = instance. */
    method AssignPointer(n: HolderId, i: InstanceId)
      modifies this`refs, this`held
      ensures State() == Assign(old(State()), n, i)
    {
      AddReference(i);
      if n in held {
        DropReference(held[n]);
      }
      held := held[n := i];
    }

    /** createClient; false stands for the RuntimeError. */
    method CreateClient(n: HolderId, node: string, resource: string, nodeAlive: bool) returns (ok: bool)
      requires Valid()
      modifies this
      ensures Valid() && history == Did(old(history), Create(n, node, resource, nodeAlive))
      ensures ok == !Refused(Create(n, node, resource, nodeAlive))
      ensures ok ==> n in held && held[n] in keyOf && keyOf[held[n]] == KeyFor(node, resource)
    {
      history := Did(history, Create(n, node, resource, nodeAlive));
      if resource == "" || !nodeAlive {
        return false;
      }
      CreateHolds(old(history), n, node, resource);
      var key := node + "/" + resource;
      if key !in table || table[key] !in refs || refs[table[key]] == 0 {
        var i := MakeInstance(key);
        AssignPointer(n, i);
        table := table[key := i];
      } else {
        AssignPointer(n, table[key]);
      }
      return true;
    }

    /** The holder resets its pointer or is destroyed. */
    method Destroy(n: HolderId)
      requires Valid()
      modifies this
      ensures Valid() && history == Did(old(history), Drop(n)) && n !in held
    {
      history := Did(history, Drop(n));
      if n in held {
        DropReference(held[n]);
        held := held - {n};
      }
    }
  }
}
