/**
 Registration of the kvmexitreason probes (debug/kvmexitreason/kvmexitreason.c): a table with empty
 slots, registered slot by slot, rolled back as a whole when one registration fails.
 */
module ProbeRegistration {

  class ProbeTable {
    const named: array<bool>       // symbol_name is set
    const registered: array<bool>  // known to the kernel

    ghost predicate Valid() {
      named.Length == registered.Length && named != registered
    }

    ghost predicate NoneRegistered()
      requires Valid()
      reads registered
    {
      forall i | 0 <= i < registered.Length :: !registered[i]
    }

    constructor (names: seq<bool>)
      ensures Valid() && NoneRegistered() && named[..] == names && fresh(registered) && fresh(named)
    {
      named := new bool[|names|](i requires 0 <= i < |names| => names[i]);
      registered := new bool[|names|](_ => false);
      new;
      assert named[..] == names;
    }

    /** Unregistering a probe that is not registered changes nothing. */
    method UnregisterAllProbes()
      requires Valid()
      modifies registered
      ensures forall i | 0 <= i < registered.Length :: registered[i] == (old(registered[i]) && !named[i])
    {
      for idx := 0 to registered.Length
        invariant forall i | 0 <= i < idx :: registered[i] == (old(registered[i]) && !named[i])
        invariant forall i | idx <= i < registered.Length :: registered[i] == old(registered[i])
      {
        if !named[idx] {
          continue;
        }
        registered[idx] := false;
      }
    }

    /**
     All or nothing: with rets[i] what registering slot i would return, the result is 0 exactly if no
     named slot fails; then exactly the named slots are registered, and otherwise none is.
     `tried` is how many slots were looked at.
     */
    method ProbeInit(rets: seq<int>) returns (ret: int, ghost tried: nat)
      requires Valid() && NoneRegistered() && |rets| == registered.Length
      modifies registered
      ensures ret == 0 || ret == -1
      ensures ret == 0 <==> forall i | 0 <= i < |rets| :: named[i] ==> rets[i] >= 0
      ensures ret == 0 ==> forall i | 0 <= i < |rets| :: registered[i] == named[i]
      ensures ret != 0 ==> NoneRegistered()
      ensures ret != 0 ==> tried < |rets| && named[tried] && rets[tried] < 0
      ensures forall i | 0 <= i < tried && i < |rets| :: named[i] ==> rets[i] >= 0
    {
      var idx := 0;
      tried := 0;
      while idx < registered.Length
        invariant 0 <= idx == tried <= registered.Length
        invariant forall i | 0 <= i < idx :: registered[i] == named[i] && (named[i] ==> rets[i] >= 0)
        invariant forall i | idx <= i < registered.Length :: !registered[i]
      {
        if named[idx] {
          if rets[idx] < 0 {
            UnregisterAllProbes();
            return -1, tried;
          }
          registered[idx] := true;
        }
        idx, tried := idx + 1, tried + 1;
      }
      ret := 0;
    }

    /** probe_exit after a successful probe_init gives back the state before it. */
    method ProbeExit()
      requires Valid() && forall i | 0 <= i < registered.Length :: registered[i] == named[i]
      modifies registered
      ensures NoneRegistered()
    {
      UnregisterAllProbes();
    }
  }

  /** A load and unload leave no probe behind, whichever registrations fail. */
  method LoadUnload(names: seq<bool>, rets: seq<int>) returns (t: ProbeTable)
    requires |rets| == |names|
    ensures fresh(t) && t.Valid() && t.named[..] == names && t.NoneRegistered()
  {
    t := new ProbeTable(names);
    var ret, _ := t.ProbeInit(rets);
    if ret == 0 {
      t.ProbeExit();
    }
  }
}
