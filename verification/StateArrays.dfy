/** statearray_t: two lists of states; new entries go to the end of the first one,
    old entries are removed from the start of the second one. */
module StateArrays {

  class StateArray {
    var adds: seq<nat>
    var dels: seq<nat>

    constructor ()
      ensures adds == [] && dels == []
    {
      adds, dels := [], [];
    }

    method Insert1(state: nat)
      modifies this`adds
      ensures adds == old(adds) + [state]
    {
      adds := adds + [state];
    }

    /** remove2_statearray; !ok stands for ENODATA. */
    method Remove2() returns (ok: bool, state: nat)
      modifies this`dels
      ensures ok <==> old(dels) != []
      ensures ok ==> old(dels) == [state] + dels
      ensures !ok ==> dels == []
    {
      ok, state := dels != [], 0;
      if ok {
        state, dels := dels[0], dels[1..];
      }
    }

    method Swap1and2()
      modifies this
      ensures dels == old(adds) && adds == []
    {
      adds, dels := [], adds;
    }
  }
}
