// WLAN offload (core/access/wifi_offload): the table of attached UEs, the per-DNN policies and the audit log.
module WlanOffload {
  import opened Wrappers

  datatype Action = Attached | Detached | Rejected
  // A row of the attach table and an entry of the log are about an IMSI on an access type.
  datatype Key = Key(imsi: string, access: string)
  datatype Entry = Entry(key: Key, action: Action)
  datatype Row = Row(n3iwf: string, innerIp: string, outerIp: string)
  datatype Policy = Policy(access: string, pref: string, enabled: bool)

  predicate ValidAccess(a: string) {
    a in {"untrusted", "trusted", "wireline"}
  }

  predicate ValidPref(p: string) {
    p in {"5g_first", "wlan_first", "5g_only", "wlan_only", "atsss"}
  }

  // ---- The log ----

  // The newest attached or detached entry of a key.
  function LastMove(log: seq<Entry>, key: Key): Option<Action> {
    if log == [] then None else
      var e := log[|log| - 1];
      if e.key == key && e.action != Rejected then Some(e.action) else LastMove(log[..|log| - 1], key)
  }

  predicate MovesAt(log: seq<Entry>, key: Key, i: int) {
    0 <= i < |log| && log[i].key == key && log[i].action != Rejected
  }

  lemma {:induction false} LastMoveMeans(log: seq<Entry>, key: Key)
    ensures LastMove(log, key).None? <==> forall i :: !MovesAt(log, key, i)
    ensures forall i :: MovesAt(log, key, i) && (forall j :: i < j ==> !MovesAt(log, key, j)) ==>
              LastMove(log, key) == Some(log[i].action)
  {
    if log == [] {
    } else {
      var before := log[..|log| - 1];
      LastMoveMeans(before, key);
      assert forall i :: MovesAt(before, key, i) <==> MovesAt(log, key, i) && i < |before|;
      assert MovesAt(log, key, |log| - 1) <==> log[|log| - 1].key == key && log[|log| - 1].action != Rejected;
      assert forall i :: MovesAt(log, key, i) ==> MovesAt(before, key, i) || i == |log| - 1;
    }
  }

  function Count(log: seq<Entry>, key: Key, action: Action): nat {
    if log == [] then 0 else
      Count(log[..|log| - 1], key, action) + if log[|log| - 1] == Entry(key, action) then 1 else 0
  }

  // The table says what the log says, and a key is never detached more often than attached.
  ghost predicate Agrees(attached: map<Key, Row>, log: seq<Entry>) {
    && (forall key :: key in attached <==> LastMove(log, key) == Some(Attached))
    && (forall key :: Count(log, key, Detached) + (if key in attached then 1 else 0) <= Count(log, key, Attached))
  }

  // An entry keeps the agreement when the table follows it: in after attached, out after detached, and a
  // detached entry only for a key that is in.
  lemma AgreesStep(attached: map<Key, Row>, log: seq<Entry>, attached': map<Key, Row>, e: Entry)
    requires Agrees(attached, log) && (e.action == Detached ==> e.key in attached)
    requires forall key :: key in attached' <==>
               if key == e.key && e.action != Rejected then e.action == Attached else key in attached
    ensures Agrees(attached', log + [e])
  {
    assert (log + [e])[..|log|] == log;
  }

  // Re-attaching is logged each time, so the counts need not differ by one: the exact law is that the
  // key's entries never have two detachments in a row, nor begin with one.
  ghost predicate Alternates(log: seq<Entry>, key: Key) {
    forall i :: MovesAt(log, key, i) && log[i].action == Detached ==>
                  LastMove(log[..i], key) == Some(Attached)
  }

  lemma AlternatesStep(attached: map<Key, Row>, log: seq<Entry>, e: Entry, key: Key)
    requires Agrees(attached, log) && Alternates(log, key) && (e.action == Detached ==> e.key in attached)
    ensures Alternates(log + [e], key)
  {
    var log' := log + [e];
    forall i | MovesAt(log', key, i) && log'[i].action == Detached
      ensures LastMove(log'[..i], key) == Some(Attached)
    {
      if i < |log| {
        assert MovesAt(log, key, i) && log'[..i] == log[..i];
      } else {
        assert log'[..i] == log;
      }
    }
  }

  // ---- Admission ----

  // Whether a DNN may be used over an access type: without a policy only over untrusted access; a policy
  // must be enabled and not 5g_only, and wlan_only also fixes the access type.
  predicate Permits(policies: map<string, Policy>, dnn: string, access: string) {
    && ValidAccess(access)
    && (dnn !in policies ==> access == "untrusted")
    && (dnn in policies ==>
          var p := policies[dnn];
          p.enabled && p.pref != "5g_only" && (p.pref == "wlan_only" ==> p.access == access))
  }

  // The decision on the columns: a known access type, and either no policy and untrusted access, or an enabled
  // policy that does not keep to 5G and, when it keeps to WLAN, is for that access type.
  lemma PermitsMeans(policies: map<string, Policy>, dnn: string, access: string)
    ensures Permits(policies, dnn, access) <==>
            && (access == "untrusted" || access == "trusted" || access == "wireline")
            && (if dnn in policies then
                  && policies[dnn].enabled && policies[dnn].pref != "5g_only"
                  && (policies[dnn].pref == "wlan_only" ==> policies[dnn].access == access)
                else access == "untrusted")
  {
  }

  class Offload {
    var policies: map<string, Policy>
    var attached: map<Key, Row>
    var log: seq<Entry>

    ghost predicate Valid()
      reads this
    {
      && Agrees(attached, log)
      && (forall key :: Alternates(log, key))
      && (forall key :: key in attached ==> key.imsi != "" && ValidAccess(key.access))
      && (forall d :: d in policies ==> d != "" && ValidAccess(policies[d].access) && ValidPref(policies[d].pref))
    }

    constructor ()
      ensures Valid() && policies == map[] && attached == map[] && log == []
    {
      policies, attached, log := map[], map[], [];
    }

    method SetPolicy(dnn: string, access: string, pref: string, enabled: bool) returns (ok: bool)
      requires Valid()
      modifies this`policies
      ensures Valid()
      ensures ok <==>
            && dnn != "" && access in {"untrusted", "trusted", "wireline"}
            && pref in {"5g_first", "wlan_first", "5g_only", "wlan_only", "atsss"}
      ensures policies == if ok then old(policies)[dnn := Policy(access, pref, enabled)] else old(policies)
    {
      if dnn == "" { return false; }
      if !ValidAccess(access) { return false; }
      if !ValidPref(pref) { return false; }
      policies := policies[dnn := Policy(access, pref, enabled)];
      ok := true;
    }

    method DeletePolicy(dnn: string)
      requires Valid()
      modifies this`policies
      ensures Valid() && policies == old(policies) - {dnn}
    {
      policies := policies - {dnn};
    }

    method LogAction(imsi: string, access: string, action: Action)
      modifies this`log
      ensures log == old(log) + [Entry(Key(imsi, access), action)]
    {
      log := log + [Entry(Key(imsi, access), action)];
    }

    // AttachUE: insert or update the row, and log it. Refused arguments change nothing.
    method AttachUE(imsi: string, access: string, row: Row) returns (ok: bool)
      requires Valid()
      modifies this`attached, this`log
      ensures Valid()
      ensures ok <==> imsi != "" && access in {"untrusted", "trusted", "wireline"}
      ensures !ok ==> attached == old(attached) && log == old(log)
      ensures ok ==> attached == old(attached)[Key(imsi, access) := row]
      ensures ok ==> log == old(log) + [Entry(Key(imsi, access), Attached)]
    {
      if imsi == "" { return false; }
      if !ValidAccess(access) { return false; }
      attached := attached[Key(imsi, access) := row];
      LogAction(imsi, access, Attached);
      var e := Entry(Key(imsi, access), Attached);
      AgreesStep(old(attached), old(log), attached, e);
      forall key ensures Alternates(log, key) { AlternatesStep(old(attached), old(log), e, key); }
      ok := true;
    }

    // DetachUE: delete the row; logged only when there was one.
    method DetachUE(imsi: string, access: string)
      requires Valid()
      modifies this`attached, this`log
      ensures Valid()
      ensures attached == old(attached) - {Key(imsi, access)}
      ensures log == if Key(imsi, access) in old(attached) then old(log) + [Entry(Key(imsi, access), Detached)] else old(log)
    {
      var key := Key(imsi, access);
      if key in attached {
        attached := attached - {key};
        LogAction(imsi, access, Detached);
        AgreesStep(old(attached), old(log), attached, Entry(key, Detached));
        forall k ensures Alternates(log, k) { AlternatesStep(old(attached), old(log), Entry(key, Detached), k); }
      }
    }

    method IsAttached(imsi: string, access: string) returns (yes: bool)
      requires Valid()
      ensures yes <==> LastMove(log, Key(imsi, access)) == Some(Attached)
    {
      yes := Key(imsi, access) in attached;
    }

    // CheckOffload: the admission decision. A refusal changes neither table; it is logged exactly when the
    // access type is a known one.
    method CheckOffload(imsi: string, dnn: string, access: string) returns (allowed: bool)
      requires Valid()
      modifies this`log
      ensures Valid()
      ensures allowed <==> Permits(policies, dnn, access)
      ensures log == if allowed || access !in {"untrusted", "trusted", "wireline"} then old(log) else old(log) + [Entry(Key(imsi, access), Rejected)]
    {
      if !ValidAccess(access) { return false; }
      if dnn !in policies {
        if access != "untrusted" {
          Reject(imsi, access);
          return false;
        }
        return true;
      }
      var pol := policies[dnn];
      if !pol.enabled {
        Reject(imsi, access);
        return false;
      }
      if pol.pref == "5g_only" {
        Reject(imsi, access);
        return false;
      }
      if pol.pref == "wlan_only" && pol.access != access {
        Reject(imsi, access);
        return false;
      }
      allowed := true;
    }

    method Reject(imsi: string, access: string)
      requires Valid()
      modifies this`log
      ensures Valid() && log == old(log) + [Entry(Key(imsi, access), Rejected)]
    {
      LogAction(imsi, access, Rejected);
      var e := Entry(Key(imsi, access), Rejected);
      AgreesStep(attached, old(log), attached, e);
      forall key ensures Alternates(log, key) { AlternatesStep(attached, old(log), e, key); }
    }
  }
}
