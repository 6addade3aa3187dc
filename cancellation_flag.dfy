/**
 * The shared, one-way cancellation flag (cancellation_flag.h).  A
 * `CancelFlagPtr` is a reference-counted pointer to an atomic flag; several
 * tasks and work items hold the same flag object, so the model makes it a
 * heap object and a nullable reference `Flag?` plays the pointer.
 */
module CancelFlag {
  class Flag {
    /** `base::AtomicFlag::IsSet()`; nothing ever unsets it. */
    var isSet: bool

    constructor ()
      ensures !isSet
    {
      isSet := false;
    }
  }

  /** `CancelFlag::Create`: a new, uncancelled flag. */
  method Create() returns (flag: Flag)
    ensures fresh(flag) && !flag.isSet
  {
    flag := new Flag();
  }

  /** `CancelFlag::IsCancelled`: false for a null pointer. */
  predicate IsCancelled(flag: Flag?)
    reads flag
  {
    flag != null && flag.isSet
  }

  /** `CancelFlag::Set`: null-safe; setting twice is the same as once. */
  method Set(flag: Flag?)
    modifies flag
    ensures flag != null ==> flag.isSet
    ensures IsCancelled(flag) <==> flag != null
  {
    if flag != null {
      flag.isSet := true;
    }
  }

  /**
   * `CancelFlag::CancelAndReset`: cancels the object the caller's pointer
   * refers to (every other holder of that object sees it cancelled) and
   * returns the new flag the caller's pointer is rebound to.
   */
  method CancelAndReset(flag: Flag?) returns (replacement: Flag)
    modifies flag
    ensures flag != null ==> flag.isSet
    ensures fresh(replacement) && !replacement.isSet
  {
    Set(flag);
    replacement := Create();
  }
}
