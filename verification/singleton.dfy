/**
 * `Singleton<T>` (core/singleton.h): a process-wide owning pointer to at most one `T`, created
 * on demand and deleted explicitly.
 *
 * Each `new T()` is a distinct construction; the model numbers constructions so that "a fresh
 * instance" can be told apart from an earlier one, and `initial` is the state a default-constructed
 * `T` starts in.
 */
module Singletons {
  import opened Wrappers

  /** One constructed `T`: its construction number and its state. */
  datatype Instance<T> = Instance(serial: nat, value: T)

  /** The static `s_pInstance` and the number of `T`s constructed so far. */
  datatype Singleton<T> = Singleton(instance: Option<Instance<T>>, constructed: nat)

  /** Every live instance was constructed earlier, so its number is below the count. */
  predicate Consistent<T>(s: Singleton<T>)
  {
    s.instance.Some? ==> s.instance.value.serial < s.constructed
  }

  /** The static initialiser: the pointer starts out null. */
  function Initial<T>(): (s: Singleton<T>)
    ensures s.instance == None && Consistent(s)
  {
    Singleton(None, 0)
  }

  /**
   * `CreateInstance`: constructs a new `T` only when there is no instance; otherwise the existing
   * instance is kept untouched.
   */
  function CreateInstance<T>(s: Singleton<T>, initial: T): (r: Singleton<T>)
    ensures r.instance.Some?
    ensures s.instance.Some? ==> r == s
    ensures s.instance.None? ==>
      r.instance == Some(Instance(s.constructed, initial)) && r.constructed == s.constructed + 1
    ensures Consistent(s) ==> Consistent(r)
  {
    if s.instance.None? then Singleton(Some(Instance(s.constructed, initial)), s.constructed + 1) else s
  }

  /** `DeleteInstance`: destroys the instance if there is one; with none it does nothing. */
  function DeleteInstance<T>(s: Singleton<T>): (r: Singleton<T>)
    ensures r.instance == None
    ensures r.constructed == s.constructed
    ensures s.instance.None? ==> r == s
    ensures Consistent(r)
  {
    if s.instance.Some? then s.(instance := None) else s
  }

  /** `Instance`: dereferences the pointer, so an instance must exist. */
  function GetInstance<T>(s: Singleton<T>): (i: Instance<T>)
    requires s.instance.Some?
    ensures Some(i) == s.instance
  {
    s.instance.value
  }

  /**
   * The create/delete state machine: creating twice keeps the first instance, deleting twice is
   * deleting once, and creating after a delete yields a newly constructed instance, never the
   * deleted one.
   */
  lemma CreateDeleteLaws<T>(s: Singleton<T>, a: T, b: T)
    requires Consistent(s)
    ensures CreateInstance(CreateInstance(s, a), b) == CreateInstance(s, a)
    ensures GetInstance(CreateInstance(CreateInstance(s, a), b)) == GetInstance(CreateInstance(s, a))
    ensures DeleteInstance(DeleteInstance(s)) == DeleteInstance(s)
    ensures var first := CreateInstance(s, a);
      var second := CreateInstance(DeleteInstance(first), b);
      GetInstance(second).serial != GetInstance(first).serial && GetInstance(second).value == b
  {
  }

  /** From the static initialiser, the first `CreateInstance` constructs instance number 0. */
  lemma FirstInstance<T>(a: T)
    ensures GetInstance(CreateInstance(Initial<T>(), a)) == Instance(0, a)
  {
  }
}
