// The material property store: for one property of the level's materials
// (a terrain name, a quad flag, a draw setting...), the value currently
// previewed per material, the value to fall back to, and the list of
// materials whose preview was changed since the last restore.
//
// Lookups with `operator[]` insert a default-constructed value when the
// material is absent; that value is `zero` here.

module Materials {
  /** The three containers of a MaterialProperty, as a value. */
  datatype Store<T> = Store(preview: map<string, T>, backup: map<string, T>, changed: seq<string>)

  /**
   * The backup map after `m_backup[material]` has been read for every
   * listed material: an absent one gains the default value.
   */
  function Filled<T>(backup: map<string, T>, names: seq<string>, zero: T): (r: map<string, T>)
    ensures r.Keys == backup.Keys + set m | m in names
    ensures forall m :: m in backup ==> r[m] == backup[m]
    ensures forall m :: m in names && m !in backup ==> r[m] == zero
  {
    map m | m in backup.Keys + (set m | m in names) :: if m in backup then backup[m] else zero
  }

  /**
   * Restore on a store: nothing when no material changed; otherwise every
   * changed material's preview takes its backup (an absent backup being
   * created with the default value first), and the list is emptied.
   */
  function Restored<T>(s: Store<T>, zero: T): (r: Store<T>)
    ensures r.changed == []
    ensures s.changed == [] ==> r == s
  {
    if s.changed == [] then s
    else
      var b := Filled(s.backup, s.changed, zero);
      Store(s.preview + map m | m in s.changed :: b[m], b, [])
  }

  /**
   * After a restore every material that had changed previews its backup
   * (the default value when it had none), and every other material keeps
   * its preview and its backup.
   */
  lemma RestoredValues<T>(s: Store<T>, zero: T)
    ensures var r := Restored(s, zero);
      && (forall m :: m in s.changed ==> m in r.preview && m in r.backup && r.preview[m] == r.backup[m])
      && (forall m :: m in s.changed ==> r.backup[m] == if m in s.backup then s.backup[m] else zero)
      && (forall m :: m !in s.changed ==> (m in r.preview <==> m in s.preview) && (m in r.backup <==> m in s.backup))
      && (forall m :: m !in s.changed && m in s.preview ==> r.preview[m] == s.preview[m])
      && (forall m :: m !in s.changed && m in s.backup ==> r.backup[m] == s.backup[m])
  {
  }

  /**
   * Restore's loop over `names`, one material at a time: read the backup
   * (inserting the default value when absent) and copy it to the preview.
   * The preview and backup maps afterwards.
   */
  function RestoreLoop<T>(preview: map<string, T>, backup: map<string, T>, names: seq<string>, zero: T)
    : (r: (map<string, T>, map<string, T>))
    decreases |names|
  {
    if names == [] then (preview, backup)
    else
      var (p, b) := RestoreLoop(preview, backup, names[..|names| - 1], zero);
      var m := names[|names| - 1];
      var b' := if m in b then b else b[m := zero];
      (p[m := b'[m]], b')
  }

  /**
   * The loop, material by material, ends where the one-step description
   * of Restore says: every listed material previews its filled backup.
   */
  lemma {:induction false} RestoreLoopAll<T>(preview: map<string, T>, backup: map<string, T>, names: seq<string>, zero: T)
    ensures RestoreLoop(preview, backup, names, zero).1 == Filled(backup, names, zero)
    ensures RestoreLoop(preview, backup, names, zero).0 == preview + map m | m in names :: Filled(backup, names, zero)[m]
    decreases |names|
  {
    if names != [] {
      var init := names[..|names| - 1];
      var m := names[|names| - 1];
      RestoreLoopAll(preview, backup, init, zero);
      assert names == init + [m];
      FillOne(backup, init, m, zero);
      var b' := Filled(backup, names, zero);
      CopyOne(preview, Filled(backup, init, zero), b', init, m);
    }
  }

  /** Reading one more material's backup fills it like the others. */
  lemma FillOne<T>(backup: map<string, T>, init: seq<string>, m: string, zero: T)
    ensures var b := Filled(backup, init, zero);
      (if m in b then b else b[m := zero]) == Filled(backup, init + [m], zero)
  {
    assert forall x :: x in init + [m] <==> x in init || x == m;
  }

  /** Copying one more material's backup to its preview extends the copied set by it. */
  lemma CopyOne<T>(preview: map<string, T>, b: map<string, T>, b': map<string, T>, init: seq<string>, m: string)
    requires m in b' && forall x :: x in init ==> x in b && x in b' && b'[x] == b[x]
    ensures (preview + map x | x in init :: b[x])[m := b'[m]] == preview + map x | x in init + [m] :: b'[x]
  {
    assert forall x :: x in init + [m] <==> x in init || x == m;
  }

  /** Restoring twice is restoring once. */
  lemma RestoredIdempotent<T>(s: Store<T>, zero: T)
    ensures Restored(Restored(s, zero), zero) == Restored(s, zero)
  {
  }

  /**
   * A preview set after a material's default value is undone by a
   * restore: the material previews its default value again.
   */
  lemma PreviewUndone<T>(s: Store<T>, m: string, v: T, w: T, zero: T)
    ensures var s1 := Store(s.preview[m := v], s.backup[m := v], s.changed);
      var s2 := Store(s1.preview[m := w], s1.backup, s1.changed + [m]);
      Restored(s2, zero).preview[m] == v
  {
    var s1 := Store(s.preview[m := v], s.backup[m := v], s.changed);
    var s2 := Store(s1.preview[m := w], s1.backup, s1.changed + [m]);
    assert m in s2.changed;
    RestoredValues(s2, zero);
  }

  /**
   * A preview written through the reference GetPreview returns is not
   * listed as changed, so a restore keeps it: the material goes on
   * previewing the written value.
   */
  lemma WriteSurvives<T>(s: Store<T>, m: string, v: T, zero: T)
    requires m !in s.changed
    ensures Restored(Store(s.preview[m := v], s.backup, s.changed), zero).preview[m] == v
  {
    RestoredValues(Store(s.preview[m := v], s.backup, s.changed), zero);
  }

  /** MaterialProperty<T>: the preview and backup maps and the changed list. */
  class MaterialProperty<T> {
    var preview: map<string, T>
    var backup: map<string, T>
    var changed: seq<string>
    /** The value-initialised T that `operator[]` inserts. */
    const zero: T

    /** The store's state as a value. */
    function State(): Store<T>
      reads this
    {
      Store(preview, backup, changed)
    }

    /** A new property holds nothing. */
    constructor (zero: T)
      ensures preview == map[] && backup == map[] && changed == [] && this.zero == zero
    {
      this.zero := zero;
      preview := map[];
      backup := map[];
      changed := [];
    }

    /** SetPreview: the material's preview becomes `v`, and the material is listed as changed. */
    method SetPreview(material: string, v: T)
      modifies this
      ensures preview == old(preview)[material := v]
      ensures backup == old(backup) && changed == old(changed) + [material]
    {
      preview := preview[material := v];
      changed := changed + [material];
    }

    /** SetBackup: the material's backup becomes `v`; nothing else changes. */
    method SetBackup(material: string, v: T)
      modifies this
      ensures backup == old(backup)[material := v]
      ensures preview == old(preview) && changed == old(changed)
    {
      backup := backup[material := v];
    }

    /** SetDefaultValue: preview and backup both become `v`, with no change recorded. */
    method SetDefaultValue(material: string, v: T)
      modifies this
      ensures preview == old(preview)[material := v] && backup == old(backup)[material := v]
      ensures changed == old(changed)
    {
      preview := preview[material := v];
      backup := backup[material := v];
    }

    /**
     * Restore: each changed material in turn previews its backup (reading
     * the backup inserts the default value when there is none), then the
     * list is emptied; with an empty list nothing happens.
     */
    method Restore()
      modifies this
      ensures State() == Restored(old(State()), zero)
    {
      if changed == [] {
        return;
      }
      ghost var s := State();
      var i := 0;
      while i < |changed|
        invariant changed == s.changed && i <= |changed|
        invariant (preview, backup) == RestoreLoop(s.preview, s.backup, changed[..i], zero)
      {
        var material := changed[i];
        if material !in backup {
          backup := backup[material := zero];
        }
        preview := preview[material := backup[material]];
        assert changed[..i + 1][..i] == changed[..i];
        i := i + 1;
      }
      assert changed[..i] == changed;
      RestoreLoopAll(s.preview, s.backup, changed, zero);
      changed := [];
    }

    /** Clear: both maps and the list are emptied. */
    method Clear()
      modifies this
      ensures preview == map[] && backup == map[] && changed == []
    {
      preview := map[];
      backup := map[];
      changed := [];
    }

    /** GetPreview: the material's preview, inserted with the default value when absent. */
    method GetPreview(material: string) returns (v: T)
      modifies this
      ensures preview == if material in old(preview) then old(preview) else old(preview)[material := zero]
      ensures backup == old(backup) && changed == old(changed)
      ensures v == preview[material]
    {
      if material !in preview {
        preview := preview[material := zero];
      }
      v := preview[material];
    }

    /**
     * An assignment through the reference GetPreview returns
     * (`GetPreview(material) = v`): the preview becomes `v`, inserted when
     * absent, and the material is not listed as changed.
     */
    method WritePreview(material: string, v: T)
      modifies this
      ensures preview == old(preview)[material := v]
      ensures backup == old(backup) && changed == old(changed)
    {
      var _ := GetPreview(material);
      preview := preview[material := v];
    }
  }
}
