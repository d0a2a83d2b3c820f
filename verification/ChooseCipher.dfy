/** The server's choice of a cipher suite, `ssl3_choose_cipher`. */
module ChooseCipher {
  import opened Basics

  datatype Cipher = Cipher(id: nat, minVersion: nat, maxVersion: nat, mkey: bv32, auth: bv32)

  /** The protocol version and the key exchanges and authentications this server can do. */
  datatype Server = Server(version: nat, maskK: bv32, maskA: bv32)

  predicate Usable(srv: Server, c: Cipher) {
    && c.minVersion <= srv.version <= c.maxVersion
    && c.mkey & srv.maskK != 0
    && c.auth & srv.maskA != 0
  }

  /** Cipher `i` of `prio` is usable and the other list has it too. */
  predicate Acceptable(srv: Server, prio: seq<Cipher>, allow: seq<Cipher>, i: nat)
    requires i < |prio|
  {
    Usable(srv, prio[i]) && prio[i] in allow
  }

  /** The index of `c` in `s`, as `sk_SSL_CIPHER_find` gives it. */
  function IndexOf(s: seq<Cipher>, c: Cipher): (k: nat)
    requires c in s
    ensures k < |s| && s[k] == c && forall j | 0 <= j < k :: s[j] != c
  {
    if s[0] == c then 0 else 1 + IndexOf(s[1..], c)
  }

  /** The equal-preference group that place `i` is in, counting groups from zero. A flag says that its
      place is not the last of its group; without flags every place is a group of its own. */
  function Group(flags: Option<seq<bool>>, i: nat): (g: nat)
    requires flags.Some? ==> i <= |flags.value|
  {
    if i == 0 then 0
    else Group(flags, i - 1) + if flags.Some? && flags.value[i - 1] then 0 else 1
  }

  lemma {:induction false} GroupMonotone(flags: Option<seq<bool>>, i: nat, j: nat)
    requires i <= j && (flags.Some? ==> j <= |flags.value|)
    ensures Group(flags, i) <= Group(flags, j)
  {
    if i < j {
      GroupMonotone(flags, i, j - 1);
    }
  }

  /** The group of place `i` has a last place. */
  ghost predicate Closed(flags: Option<seq<bool>>, i: nat) {
    flags.None? || exists j :: i <= j < |flags.value| && !flags.value[j]
  }

  /** Place `i` ranks at least as high as place `j`: an earlier group, or the same group and at least as
      early in the other side's list. */
  ghost predicate Preferred(prio: seq<Cipher>, allow: seq<Cipher>, flags: Option<seq<bool>>, i: nat, j: nat)
    requires i < |prio| && j < |prio| && prio[i] in allow && prio[j] in allow
    requires flags.Some? ==> |flags.value| == |prio|
  {
    || Group(flags, i) < Group(flags, j)
    || (Group(flags, i) == Group(flags, j) && IndexOf(allow, prio[i]) <= IndexOf(allow, prio[j]))
  }

  /** `c` is the best choice: null exactly when no acceptable cipher has a closed group, and otherwise an
      acceptable cipher of a closed group that ranks at least as high as every other. */
  ghost predicate Best(srv: Server, prio: seq<Cipher>, allow: seq<Cipher>, flags: Option<seq<bool>>, c: Option<Cipher>)
    requires flags.Some? ==> |flags.value| == |prio|
  {
    match c
    case None => forall i: nat | i < |prio| && Acceptable(srv, prio, allow, i) :: !Closed(flags, i)
    case Some(cipher) =>
      exists i: nat ::
        && i < |prio| && Acceptable(srv, prio, allow, i) && Closed(flags, i) && prio[i] == cipher
        && forall j: nat | j < |prio| && Acceptable(srv, prio, allow, j) :: Preferred(prio, allow, flags, i, j)
  }

  /** The smallest index into `allow` of an acceptable cipher among the places of group `g` before `n`, and
      a place that has it. */
  ghost predicate IsGroupMin(srv: Server, prio: seq<Cipher>, allow: seq<Cipher>, flags: Option<seq<bool>>, n: nat, g: nat, m: int)
    requires n <= |prio| && (flags.Some? ==> |flags.value| == |prio|)
  {
    if m == -1 then
      forall j: nat | j < n && Group(flags, j) == g :: !Acceptable(srv, prio, allow, j)
    else
      && 0 <= m < |allow|
      && (exists i: nat :: i < n && Group(flags, i) == g && Acceptable(srv, prio, allow, i) && IndexOf(allow, prio[i]) == m)
      && forall j: nat | j < n && Group(flags, j) == g && Acceptable(srv, prio, allow, j) :: m <= IndexOf(allow, prio[j])
  }

  /** No acceptable cipher is in a group before that of place `n`. */
  ghost predicate NoneBefore(srv: Server, prio: seq<Cipher>, allow: seq<Cipher>, flags: Option<seq<bool>>, n: nat)
    requires n <= |prio| && (flags.Some? ==> |flags.value| == |prio|)
  {
    forall j: nat | j < n && Group(flags, j) < Group(flags, n) :: !Acceptable(srv, prio, allow, j)
  }

  /** Once the last place of the first group with a match has been looked at, the minimum is the answer. */
  lemma {:induction false} MinimumIsBest(srv: Server, prio: seq<Cipher>, allow: seq<Cipher>, flags: Option<seq<bool>>, i: nat, m: nat)
    requires i < |prio| && (flags.Some? ==> |flags.value| == |prio| && !flags.value[i])
    requires NoneBefore(srv, prio, allow, flags, i)
    requires IsGroupMin(srv, prio, allow, flags, i + 1, Group(flags, i), m)
    ensures Best(srv, prio, allow, flags, Some(allow[m]))
  {
    var w: nat :| w < i + 1 && Group(flags, w) == Group(flags, i) && Acceptable(srv, prio, allow, w) && IndexOf(allow, prio[w]) == m;
    assert Closed(flags, w);
    forall j: nat | j < |prio| && Acceptable(srv, prio, allow, j)
      ensures Preferred(prio, allow, flags, w, j)
    {
      if j <= i {
        GroupMonotone(flags, j, i);
      } else {
        GroupMonotone(flags, i + 1, j);
      }
    }
  }

  /** Between two places of the same group every flag is set. */
  lemma {:induction false} SameGroupFlags(flags: Option<seq<bool>>, i: nat, k: nat, j: nat)
    requires i <= k < j && (flags.Some? ==> j <= |flags.value|)
    requires Group(flags, i) == Group(flags, j)
    ensures flags.Some? && flags.value[k]
  {
    GroupMonotone(flags, i, k);
    GroupMonotone(flags, k + 1, j);
  }

  /** Stepping past place `i`, which is inside a group or ends one without a match. */
  lemma {:induction false} NextPlace(srv: Server, prio: seq<Cipher>, allow: seq<Cipher>, flags: Option<seq<bool>>, i: nat, m: int)
    requires i < |prio| && (flags.Some? ==> |flags.value| == |prio|)
    requires NoneBefore(srv, prio, allow, flags, i)
    requires IsGroupMin(srv, prio, allow, flags, i + 1, Group(flags, i), m)
    requires m == -1 || (flags.Some? && flags.value[i])
    ensures NoneBefore(srv, prio, allow, flags, i + 1)
    ensures IsGroupMin(srv, prio, allow, flags, i + 1, Group(flags, i + 1), m)
  {
    forall j: nat | j <= i {
      GroupMonotone(flags, j, i);
    }
  }

  /** If the loop runs out, every acceptable cipher is in a last group that has no end. */
  lemma {:induction false} NothingLeft(srv: Server, prio: seq<Cipher>, allow: seq<Cipher>, flags: Option<seq<bool>>)
    requires flags.Some? ==> |flags.value| == |prio|
    requires NoneBefore(srv, prio, allow, flags, |prio|)
    ensures Best(srv, prio, allow, flags, None)
  {
    forall i: nat | i < |prio| && Acceptable(srv, prio, allow, i)
      ensures !Closed(flags, i)
    {
      GroupMonotone(flags, i, |prio|);
      SameGroupFlags(flags, i, i, |prio|);
      forall j | i <= j < |flags.value|
        ensures flags.value[j]
      {
        SameGroupFlags(flags, i, j, |prio|);
      }
    }
  }

  /** The loop of `ssl3_choose_cipher`. */
  method Choose(srv: Server, prio: seq<Cipher>, allow: seq<Cipher>, flags: Option<seq<bool>>) returns (c: Option<Cipher>)
    requires flags.Some? ==> |flags.value| == |prio|
    ensures Best(srv, prio, allow, flags, c)
  {
    var groupMin := -1;
    for i := 0 to |prio|
      invariant NoneBefore(srv, prio, allow, flags, i)
      invariant IsGroupMin(srv, prio, allow, flags, i, Group(flags, i), groupMin)
      invariant flags.None? ==> groupMin == -1
    {
      ghost var g := Group(flags, i);
      if Acceptable(srv, prio, allow, i) {
        var cipherIndex := IndexOf(allow, prio[i]);
        if flags.Some? && flags.value[i] {
          if groupMin == -1 || groupMin > cipherIndex {
            groupMin := cipherIndex;
          }
        } else {
          if groupMin != -1 && groupMin < cipherIndex {
            cipherIndex := groupMin;
          }
          assert IsGroupMin(srv, prio, allow, flags, i + 1, g, cipherIndex);
          MinimumIsBest(srv, prio, allow, flags, i, cipherIndex);
          return Some(allow[cipherIndex]);
        }
      }
      assert IsGroupMin(srv, prio, allow, flags, i + 1, g, groupMin);
      if flags.Some? && !flags.value[i] && groupMin != -1 {
        MinimumIsBest(srv, prio, allow, flags, i, groupMin);
        return Some(allow[groupMin]);
      }
      NextPlace(srv, prio, allow, flags, i, groupMin);
    }
    NothingLeft(srv, prio, allow, flags);
    return None;
  }

  /** `ssl3_choose_cipher`: the preference list of one side is searched and the other's decides what is
      allowed and, inside a group of equal preference, what comes first. */
  method ChooseCipher(srv: Server, serverPreference: bool, clientPref: seq<Cipher>, serverPref: seq<Cipher>, inGroup: seq<bool>)
    returns (c: Option<Cipher>)
    requires |inGroup| == |serverPref|
    ensures serverPreference ==> Best(srv, serverPref, clientPref, Some(inGroup), c)
    ensures !serverPreference ==> Best(srv, clientPref, serverPref, None, c)
  {
    if serverPreference {
      c := Choose(srv, serverPref, clientPref, Some(inGroup));
    } else {
      c := Choose(srv, clientPref, serverPref, None);
    }
  }

  /** If the last flag is clear, as the source documents, null means that nothing is acceptable. */
  lemma {:induction false} NullMeansNoneAcceptable(srv: Server, prio: seq<Cipher>, allow: seq<Cipher>, flags: seq<bool>)
    requires |flags| == |prio| && (|flags| > 0 ==> !flags[|flags| - 1])
    requires Best(srv, prio, allow, Some(flags), None)
    ensures forall i: nat | i < |prio| :: !Acceptable(srv, prio, allow, i)
  {
    forall i: nat | i < |prio|
      ensures Closed(Some(flags), i)
    {
      assert i <= |flags| - 1 && !flags[|flags| - 1];
    }
  }

  /** Without flags the answer is the first acceptable cipher of the list. */
  lemma {:induction false} GroupWithoutFlags(i: nat)
    ensures Group(None, i) == i
  {
    if i > 0 {
      GroupWithoutFlags(i - 1);
    }
  }

  lemma {:induction false} FirstAcceptable(srv: Server, prio: seq<Cipher>, allow: seq<Cipher>, c: Cipher)
    requires Best(srv, prio, allow, None, Some(c))
    ensures exists i: nat ::
              && i < |prio| && Acceptable(srv, prio, allow, i) && prio[i] == c
              && forall j: nat | j < i :: !Acceptable(srv, prio, allow, j)
  {
    var i: nat :|
      && i < |prio| && Acceptable(srv, prio, allow, i) && Closed(None, i) && prio[i] == c
      && forall j: nat | j < |prio| && Acceptable(srv, prio, allow, j) :: Preferred(prio, allow, None, i, j);
    forall j: nat | j < i
      ensures !Acceptable(srv, prio, allow, j)
    {
      GroupWithoutFlags(i);
      GroupWithoutFlags(j);
    }
  }
}
