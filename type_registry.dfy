/**
 * The alias registry for polymorphic serialization: a type gets at most one
 * alias, and the first registration for a type is the one that stays.
 */
module TypeRegistry {
  import opened Wrappers
  import opened Platform

  /** Map.putIfAbsent: the map afterwards, and the value the key held before (null if none). */
  function PutIfAbsent<K, V>(m: map<K, V>, k: K, v: V): (r: (map<K, V>, Option<V>))
    ensures r.0.Keys == m.Keys + {k}
    ensures forall j :: j in m ==> r.0[j] == m[j]
    ensures k !in m ==> r.0[k] == v && r.1 == None
    ensures k in m ==> r.0 == m && r.1 == Some(m[k])
  {
    if k in m then (m, Some(m[k])) else (m[k := v], None)
  }

  /** The alias map after a sequence of registrations, applied in order to an empty map. */
  function Registered(regs: seq<(JClass, string)>): map<JClass, string>
  {
    if regs == [] then map[]
    else PutIfAbsent(Registered(regs[..|regs| - 1]), regs[|regs| - 1].0, regs[|regs| - 1].1).0
  }

  /** The alias given by the earliest registration of a type, searching from the front. */
  function FirstAlias(regs: seq<(JClass, string)>, c: JClass): Option<string>
  {
    if regs == [] then None
    else if regs[0].0 == c then Some(regs[0].1)
    else FirstAlias(regs[1..], c)
  }

  lemma {:induction false} FirstAliasAppend(regs: seq<(JClass, string)>, x: (JClass, string), c: JClass)
    ensures FirstAlias(regs + [x], c) ==
      if FirstAlias(regs, c).Some? then FirstAlias(regs, c)
      else if x.0 == c then Some(x.1) else None
  {
    if regs == [] {
      assert regs + [x] == [x];
      assert [x][1..] == [];
    } else {
      assert (regs + [x])[1..] == regs[1..] + [x];
      FirstAliasAppend(regs[1..], x, c);
    }
  }

  /**
   * First registration wins: after any sequence of registrations, a type has an
   * alias exactly when it was registered, and its alias is the one given the
   * first time.
   */
  lemma {:induction false} FirstRegistrationWins(regs: seq<(JClass, string)>, c: JClass)
    ensures c in Registered(regs) <==> FirstAlias(regs, c).Some?
    ensures c in Registered(regs) ==> Registered(regs)[c] == FirstAlias(regs, c).value
    decreases |regs|
  {
    if regs != [] {
      var init, last := regs[..|regs| - 1], regs[|regs| - 1];
      assert regs == init + [last];
      FirstRegistrationWins(init, c);
      FirstAliasAppend(init, last, c);
    }
  }

  /** The map only grows: later registrations neither remove nor replace an alias. */
  lemma RegistrationsOnlyAdd(regs: seq<(JClass, string)>, more: seq<(JClass, string)>, c: JClass)
    requires c in Registered(regs)
    ensures c in Registered(regs + more) && Registered(regs + more)[c] == Registered(regs)[c]
  {
    FirstRegistrationWins(regs, c);
    FirstRegistrationWins(regs + more, c);
    FirstAliasPrefix(regs, more, c);
  }

  lemma {:induction false} FirstAliasPrefix(regs: seq<(JClass, string)>, more: seq<(JClass, string)>, c: JClass)
    requires FirstAlias(regs, c).Some?
    ensures FirstAlias(regs + more, c) == FirstAlias(regs, c)
  {
    if regs[0].0 != c {
      assert (regs + more)[1..] == regs[1..] + more;
      FirstAliasPrefix(regs[1..], more, c);
    }
  }

  class TypeRegistry {
    var aliases: map<JClass, string>
    /** Every registration that got past the null checks, in call order. */
    ghost var registrations: seq<(JClass, string)>

    ghost predicate Valid()
      reads this
    {
      aliases == Registered(registrations)
    }

    constructor ()
      ensures Valid() && aliases == map[] && registrations == []
    {
      aliases := map[];
      registrations := [];
    }

    /**
     * Registers an alias for a type unless the type already has one; returns
     * the earlier alias, or null when this call stored the new one. A null
     * type or alias fails before the map is touched.
     */
    method AddAlias(clazz: Option<JClass>, alias: Option<string>) returns (r: Result<Option<string>, Failure>)
      requires Valid()
      modifies this
      ensures Valid()
      ensures clazz.None? ==> r == Failure(NullPointer(Some("Type class must be provided")))
      ensures clazz.Some? && alias.None? ==> r == Failure(NullPointer(Some("Alias name must be provided")))
      ensures r.Failure? ==> aliases == old(aliases) && registrations == old(registrations)
      ensures clazz.Some? && alias.Some? ==>
        && r.Success?
        && registrations == old(registrations) + [(clazz.value, alias.value)]
        && (aliases, r.value) == PutIfAbsent(old(aliases), clazz.value, alias.value)
    {
      if clazz.None? {
        return Failure(NullPointer(Some("Type class must be provided")));
      }
      if alias.None? {
        return Failure(NullPointer(Some("Alias name must be provided")));
      }
      var (updated, previous) := PutIfAbsent(aliases, clazz.value, alias.value);
      aliases := updated;
      registrations := registrations + [(clazz.value, alias.value)];
      assert registrations[..|registrations| - 1] == old(registrations);
      return Success(previous);
    }

    /** A copy of the alias map; the caller's copy is a separate value, so changing it leaves the registry alone. */
    method GetAliases() returns (copy: map<JClass, string>)
      ensures copy == aliases
    {
      copy := aliases;
    }
  }
}
