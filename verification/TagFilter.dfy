/** The per-tag output levels: five slots standing for a small map keyed by truncated tags. */
module TagFilter {

  const SLOTS: nat := 5
  const TAG_MAX_LEN: nat := 16
  const SILENT: nat := 0
  const ALL: nat := 5

  datatype Slot = Slot(level: nat, tag: string, used: bool)

  const FREE := Slot(SILENT, "", false)

  /** `strncmp` and `strncpy` look at this much of a tag. */
  function Key(tag: string): (k: string)
    ensures |k| <= TAG_MAX_LEN
  {
    if |tag| <= TAG_MAX_LEN then tag else tag[..TAG_MAX_LEN]
  }

  /** Two tags are taken for one exactly when they are equal or agree in their first 16 characters. */
  lemma SameKeyIff(s: string, t: string)
    ensures Key(s) == Key(t) <==> s == t || (16 <= |s| && 16 <= |t| && s[..16] == t[..16])
  {
  }

  /** The map the slots stand for. */
  ghost function Table(slots: seq<Slot>): (m: map<string, nat>)
    decreases |slots|
  {
    if slots == [] then map[]
    else
      var n := |slots| - 1;
      var m := Table(slots[..n]);
      if slots[n].used then m[slots[n].tag := slots[n].level] else m
  }

  predicate Has(slots: seq<Slot>, key: string) {
    exists i :: 0 <= i < |slots| && slots[i].used && slots[i].tag == key
  }

  ghost predicate Distinct(slots: seq<Slot>) {
    forall i, j | 0 <= i < j < |slots| && slots[i].used && slots[j].used :: slots[i].tag != slots[j].tag
  }

  lemma {:induction false} TableKeys(slots: seq<Slot>, key: string)
    ensures key in Table(slots) <==> Has(slots, key)
    decreases |slots|
  {
    if slots != [] {
      var n := |slots| - 1;
      TableKeys(slots[..n], key);
      if Has(slots[..n], key) {
        var i :| 0 <= i < n && slots[..n][i].used && slots[..n][i].tag == key;
        assert slots[i].used && slots[i].tag == key;
      }
      if Has(slots, key) && !(slots[n].used && slots[n].tag == key) {
        var i :| 0 <= i < |slots| && slots[i].used && slots[i].tag == key;
        assert slots[..n][i].used;
      }
    }
  }

  lemma {:induction false} TableAt(slots: seq<Slot>, i: nat)
    requires Distinct(slots) && i < |slots| && slots[i].used
    ensures slots[i].tag in Table(slots) && Table(slots)[slots[i].tag] == slots[i].level
    decreases |slots|
  {
    var n := |slots| - 1;
    if i < n {
      assert slots[..n][i] == slots[i];
      TableAt(slots[..n], i);
    }
  }

  /** The map has as many keys as slots are used, so it is full when no slot is free. */
  lemma {:induction false} TableSize(slots: seq<Slot>)
    requires Distinct(slots)
    ensures |Table(slots)| <= |slots|
    ensures |Table(slots)| == |slots| <==> forall i | 0 <= i < |slots| :: slots[i].used
    decreases |slots|
  {
    if slots != [] {
      var n := |slots| - 1;
      TableSize(slots[..n]);
      TableKeys(slots[..n], slots[n].tag);
      forall i | 0 <= i < n && slots[..n][i].used && slots[n].used ensures slots[..n][i].tag != slots[n].tag {
        assert slots[i].used;
      }
      assert forall i | 0 <= i < n :: slots[..n][i] == slots[i];
    }
  }

  /** What setting a tag's level means for the map. */
  function SetLevel(m: map<string, nat>, key: string, level: nat): (r: map<string, nat>)
    ensures |m| <= SLOTS ==> |r| <= SLOTS
  {
    if level == ALL then
      RemovalShrinks(m, key);
      m - {key}
    else if key in m || |m| < SLOTS then m[key := level]
    else m
  }

  lemma RemovalShrinks(m: map<string, nat>, key: string)
    ensures |m - {key}| <= |m|
  {
    var r := m - {key};
    assert r.Keys == m.Keys - {key};
    assert |r.Keys| <= |m.Keys|;
  }

  function GetLevel(m: map<string, nat>, key: string): nat {
    if key in m then m[key] else ALL
  }

  /** Overwriting one slot by a used one whose tag no other used slot carries. */
  lemma StoreInSlot(slots: seq<Slot>, i: nat, key: string, level: nat)
    requires Distinct(slots) && i < |slots|
    requires forall j | 0 <= j < |slots| && j != i && slots[j].used :: slots[j].tag != key
    requires slots[i].used ==> slots[i].tag == key
    ensures var after := slots[i := Slot(level, key, true)];
      Distinct(after) && Table(after) == Table(slots)[key := level]
  {
    var after := slots[i := Slot(level, key, true)];
    forall k ensures k in Table(after) <==> k in Table(slots)[key := level] {
      SameKeysBut(slots, after, i, k);
    }
    forall k | k in Table(after) ensures Table(after)[k] == Table(slots)[key := level][k] {
      TableKeys(after, k);
      var j :| 0 <= j < |after| && after[j].used && after[j].tag == k;
      TableAt(after, j);
      if j != i { TableAt(slots, j); }
    }
  }

  lemma SameKeysBut(slots: seq<Slot>, after: seq<Slot>, i: nat, k: string)
    requires i < |slots| == |after| && after == slots[i := after[i]]
    ensures (slots[i].used ==> slots[i].tag != k) && (after[i].used ==> after[i].tag != k) ==>
      (k in Table(after) <==> k in Table(slots))
    ensures after[i].used && after[i].tag == k ==> k in Table(after)
  {
    TableKeys(slots, k);
    TableKeys(after, k);
    if k in Table(after) && !(after[i].used && after[i].tag == k) {
      var j :| 0 <= j < |after| && after[j].used && after[j].tag == k;
      assert slots[j].used;
    }
    if k in Table(slots) && !(slots[i].used && slots[i].tag == k) {
      var j :| 0 <= j < |slots| && slots[j].used && slots[j].tag == k;
      assert after[j].used;
    }
    if after[i].used && after[i].tag == k { assert Has(after, k); }
  }

  /** Freeing a used slot removes its tag. */
  lemma FreeSlot(slots: seq<Slot>, i: nat)
    requires Distinct(slots) && i < |slots| && slots[i].used
    ensures var after := slots[i := FREE];
      Distinct(after) && Table(after) == Table(slots) - {slots[i].tag}
  {
    var after, key := slots[i := FREE], slots[i].tag;
    forall k ensures k in Table(after) <==> k in Table(slots) && k != key {
      SameKeysBut(slots, after, i, k);
      TableKeys(after, k);
      TableKeys(slots, k);
    }
    forall k | k in Table(after) ensures Table(after)[k] == Table(slots)[k] {
      TableKeys(after, k);
      var j :| 0 <= j < |after| && after[j].used && after[j].tag == k;
      TableAt(after, j);
      TableAt(slots, j);
    }
    assert Table(after) == Table(slots) - {key};
  }

  class TagTable {
    const slots: array<Slot>
    var initOk: bool

    ghost predicate Valid()
      reads this, slots
    {
      slots.Length == SLOTS && Distinct(slots[..]) &&
      forall i | 0 <= i < SLOTS :: slots[i].used ==> slots[i].level < ALL && slots[i].tag == Key(slots[i].tag)
    }

    ghost function Levels(): map<string, nat>
      reads this, slots
    {
      Table(slots[..])
    }

    constructor ()
      ensures Valid() && Levels() == map[] && !initOk && fresh(slots)
    {
      slots := new Slot[SLOTS](_ => FREE);
      initOk := false;
      new;
      forall k ensures k !in Table(slots[..]) { TableKeys(slots[..], k); }
    }

    /** All slots free, as `elog_init` leaves them. */
    method SetDefault()
      requires slots.Length == SLOTS
      modifies slots
      ensures Valid() && Levels() == map[]
    {
      var i := 0;
      while i < SLOTS
        invariant 0 <= i <= SLOTS
        invariant forall k | 0 <= k < i :: slots[k] == FREE
      {
        slots[i] := FREE;
        i := i + 1;
      }
      forall k ensures k !in Table(slots[..]) { TableKeys(slots[..], k); }
    }

    /** The slot in use for the tag, or SLOTS. */
    method Find(tag: string) returns (i: nat)
      requires Valid()
      ensures i <= SLOTS
      ensures i < SLOTS ==> slots[i].used && slots[i].tag == Key(tag)
      ensures i == SLOTS ==> !Has(slots[..], Key(tag))
    {
      i := 0;
      while i < SLOTS
        invariant i <= SLOTS
        invariant forall k | 0 <= k < i :: !(slots[k].used && slots[k].tag == Key(tag))
      {
        if slots[i].used && slots[i].tag == Key(tag) {
          return;
        }
        i := i + 1;
      }
    }

    method Set(tag: string, level: nat)
      requires Valid() && level <= ALL
      modifies slots
      ensures Valid()
      ensures Levels() == if initOk then SetLevel(old(Levels()), Key(tag), level) else old(Levels())
    {
      if !initOk {
        return;
      }
      ghost var before := slots[..];
      TableKeys(before, Key(tag));
      TableSize(before);
      var i := Find(tag);
      if i < SLOTS {
        TableAt(before, i);
        if level == ALL {
          FreeSlot(before, i);
          slots[i] := FREE;
          assert slots[..] == before[i := FREE];
        } else {
          StoreInSlot(before, i, Key(tag), level);
          slots[i] := slots[i].(level := level);
          assert slots[..] == before[i := Slot(level, Key(tag), true)];
        }
      } else if level != ALL {
        AddNew(tag, level);
      } else {
        assert Table(before) - {Key(tag)} == Table(before);
      }
    }

    /** Takes the first free slot for a tag that has none yet; a full table stays as it is. */
    method AddNew(tag: string, level: nat)
      requires Valid() && level < ALL && !Has(slots[..], Key(tag))
      modifies slots
      ensures Valid()
      ensures Levels() == SetLevel(old(Levels()), Key(tag), level)
    {
      ghost var before := slots[..];
      TableKeys(before, Key(tag));
      TableSize(before);
      var i := 0;
      while i < SLOTS
        invariant 0 <= i <= SLOTS && slots[..] == before
        invariant forall k | 0 <= k < i :: before[k].used
      {
        if !slots[i].used {
          StoreInSlot(before, i, Key(tag), level);
          slots[i] := Slot(level, Key(tag), true);
          assert slots[..] == before[i := Slot(level, Key(tag), true)];
          return;
        }
        i := i + 1;
      }
    }

    method Get(tag: string) returns (level: nat)
      requires Valid()
      ensures level == if initOk then GetLevel(Levels(), Key(tag)) else ALL
    {
      level := ALL;
      if !initOk {
        return;
      }
      var i := Find(tag);
      TableKeys(slots[..], Key(tag));
      if i < SLOTS {
        TableAt(slots[..], i);
        level := slots[i].level;
      }
    }
  }

  /** One call of the setter. */
  datatype Setting = Setting(key: string, level: nat)

  function AfterAll(settings: seq<Setting>): (m: map<string, nat>)
    ensures |m| <= SLOTS
    decreases |settings|
  {
    if settings == [] then map[]
    else
      var n := |settings| - 1;
      SetLevel(AfterAll(settings[..n]), settings[n].key, settings[n].level)
  }

  /** The setter can do what it is asked: it needs no new slot, or there is one. */
  predicate HasRoom(m: map<string, nat>, setting: Setting) {
    setting.level == ALL || setting.key in m || |m| < SLOTS
  }

  /** The setter found room whenever it was called. */
  predicate NeverRefused(settings: seq<Setting>)
    decreases |settings|
  {
    settings == [] ||
    (var n := |settings| - 1; NeverRefused(settings[..n]) && HasRoom(AfterAll(settings[..n]), settings[n]))
  }

  /** The level a tag was last given with room for it. */
  function LastGranted(settings: seq<Setting>, key: string): nat
    decreases |settings|
  {
    if settings == [] then ALL
    else
      var n := |settings| - 1;
      if settings[n].key == key && HasRoom(AfterAll(settings[..n]), settings[n]) then settings[n].level
      else LastGranted(settings[..n], key)
  }

  /** Over every run a tag has the level it was last granted, and a refusal finds it at ALL. */
  lemma {:induction false} FilterRemembersLastGranted(settings: seq<Setting>, key: string)
    ensures GetLevel(AfterAll(settings), key) == LastGranted(settings, key)
    ensures forall level: nat | !HasRoom(AfterAll(settings), Setting(key, level)) :: LastGranted(settings, key) == ALL
    decreases |settings|
  {
    if settings != [] {
      FilterRemembersLastGranted(settings[..|settings| - 1], key);
    }
  }

  function LastSetting(settings: seq<Setting>, key: string): nat
    decreases |settings|
  {
    if settings == [] then ALL
    else
      var n := |settings| - 1;
      if settings[n].key == key then settings[n].level else LastSetting(settings[..n], key)
  }

  /** Over any run that never needs a sixth slot, every tag has the level it was last given. */
  lemma {:induction false} FilterRemembersLastSetting(settings: seq<Setting>, key: string)
    requires NeverRefused(settings)
    ensures GetLevel(AfterAll(settings), key) == LastSetting(settings, key)
    decreases |settings|
  {
    if settings != [] {
      FilterRemembersLastSetting(settings[..|settings| - 1], key);
    }
  }

  /** A refused setting changes no tag's level; any setting leaves all other tags alone. */
  lemma OtherTagsUntouched(m: map<string, nat>, key: string, level: nat, other: string)
    requires other != key || (key !in m && |m| == SLOTS && level != ALL)
    ensures GetLevel(SetLevel(m, key, level), other) == GetLevel(m, other)
  {
  }

  /** What a tag's level is right after setting it: what was asked for, unless a sixth tag had no slot. */
  lemma SettingReadsBack(m: map<string, nat>, key: string, level: nat)
    requires |m| <= 5
    ensures GetLevel(SetLevel(m, key, level), key) == if level == 5 || key in m || |m| < 5 then level else 5
    ensures level == 5 ==> key !in SetLevel(m, key, level)
  {
  }
}
