// A set of keys with an operation in progress.
module Locking {
  class VolumeLocks {
    var locks: set<string>

    constructor ()
      ensures locks == {}
    {
      locks := {};
    }

    // True if this call took the key; false, and no change, if it was taken.
    method TryAcquire(key: string) returns (acquired: bool)
      modifies this
      ensures acquired <==> key !in old(locks)
      ensures locks == if acquired then old(locks) + {key} else old(locks)
    {
      if key in locks {
        return false;
      }
      locks := locks + {key};
      return true;
    }

    method Release(key: string)
      modifies this
      ensures locks == old(locks) - {key}
    {
      locks := locks - {key};
    }
  }
}
