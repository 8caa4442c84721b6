/**
 * `getEnv(newKey, oldKey)`: reading a renamed environment variable. The new
 * name wins whenever it is defined; otherwise the old name is read and a
 * deprecation notice is printed, once per old name for the life of the
 * process. The set of old names already warned about is the module's only
 * state and is passed in and out explicitly here; the notice itself is
 * reduced to the flag that says one is printed.
 */
module GetEnv {
  import opened Wrappers

  type Env = map<string, string>

  /** The value read, the warned-about names afterwards, and whether a notice is printed. */
  datatype Lookup = Lookup(value: Option<string>, warned: set<string>, warn: bool)

  function GetEnv(env: Env, warned: set<string>, newKey: string, oldKey: string): (r: Lookup)
    // the new name wins, even when it is set to the empty string, and says nothing
    ensures newKey in env ==> r.value == Some(env[newKey]) && !r.warn && r.warned == warned
    // otherwise the old name is read, with a notice the first time only
    ensures newKey !in env && oldKey in env ==>
              r.value == Some(env[oldKey]) && (r.warn <==> oldKey !in warned) && r.warned == warned + {oldKey}
    // neither name: nothing
    ensures newKey !in env && oldKey !in env ==> r.value == None && !r.warn && r.warned == warned
  {
    if newKey in env then Lookup(Some(env[newKey]), warned, false)
    else if oldKey in env then
      Lookup(Some(env[oldKey]), warned + {oldKey}, oldKey !in warned)
    else Lookup(None, warned, false)
  }

  /** The value read never depends on which notices were printed before. */
  lemma ValueIgnoresHistory(env: Env, w1: set<string>, w2: set<string>, newKey: string, oldKey: string)
    ensures GetEnv(env, w1, newKey, oldKey).value == GetEnv(env, w2, newKey, oldKey).value
  {
  }

  /** A call can only add names to the warned set, and a notice means its old name was added. */
  lemma WarnedGrows(env: Env, warned: set<string>, newKey: string, oldKey: string)
    ensures var r := GetEnv(env, warned, newKey, oldKey);
            warned <= r.warned && r.warned <= warned + {oldKey} && (r.warn ==> oldKey !in warned && oldKey in r.warned)
  {
  }

  // ---------------------------------------------------------------------
  // Many calls over the life of the process
  // ---------------------------------------------------------------------

  datatype Call = Call(newKey: string, oldKey: string)

  /** The old names a notice is printed for, in order, and the warned set at the end. */
  datatype Trace = Trace(notices: seq<string>, warned: set<string>)

  function Run(env: Env, warned: set<string>, calls: seq<Call>): Trace
    decreases |calls|
  {
    if |calls| == 0 then Trace([], warned)
    else
      var r := GetEnv(env, warned, calls[0].newKey, calls[0].oldKey);
      var rest := Run(env, r.warned, calls[1..]);
      Trace((if r.warn then [calls[0].oldKey] else []) + rest.notices, rest.warned)
  }

  /**
   * Over any sequence of calls, no old name gets two notices, none gets one
   * if it was warned about before, every name warned about is remembered,
   * and the warned set only grows.
   */
  lemma {:induction false} NoticeAtMostOnce(env: Env, warned: set<string>, calls: seq<Call>)
    ensures var t := Run(env, warned, calls);
            && warned <= t.warned
            && (forall i :: 0 <= i < |t.notices| ==> t.notices[i] !in warned && t.notices[i] in t.warned)
            && (forall i, j :: 0 <= i < j < |t.notices| ==> t.notices[i] != t.notices[j])
    decreases |calls|
  {
    if |calls| > 0 {
      var r := GetEnv(env, warned, calls[0].newKey, calls[0].oldKey);
      NoticeAtMostOnce(env, r.warned, calls[1..]);
      var rest := Run(env, r.warned, calls[1..]);
      var head := if r.warn then [calls[0].oldKey] else [];
      var t := Run(env, warned, calls);
      assert t.notices == head + rest.notices;
      forall i | 0 <= i < |t.notices| ensures t.notices[i] !in warned && t.notices[i] in t.warned {
        if i >= |head| {
          assert t.notices[i] == rest.notices[i - |head|];
        }
      }
      forall i, j | 0 <= i < j < |t.notices| ensures t.notices[i] != t.notices[j] {
        if i >= |head| {
          assert t.notices[i] == rest.notices[i - |head|];
        }
        assert t.notices[j] == rest.notices[j - |head|];
      }
    }
  }

  /** Reading the same renamed variable twice prints the notice at most once, and gives the same value both times. */
  lemma RepeatedRead(env: Env, warned: set<string>, newKey: string, oldKey: string)
    ensures var first := GetEnv(env, warned, newKey, oldKey);
            var second := GetEnv(env, first.warned, newKey, oldKey);
            !second.warn && second.value == first.value && second.warned == first.warned
  {
  }
}
