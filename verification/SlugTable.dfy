/** The slug code as it runs: objects and a table updated in place. */
module SlugTables {
  import opened Common
  import opened Identifiers
  import opened SlugAllocator
  import opened SlugRegistry

  class Instance {
    const pk: string
    var title: Title
    var slug: string
    var outdated: seq<string>
    var deleted: bool
    var original: Title

    constructor (pk: string, row: Row, original: Title)
      ensures Value() == Obj(pk, row, original)
    {
      this.pk := pk;
      title, slug, outdated, deleted := row.title, row.slug, row.outdated, row.deleted;
      this.original := original;
    }

    function Value(): Obj
      reads this
    {
      Obj(pk, Row(title, slug, outdated, deleted), original)
    }
  }

  class SlugTable {
    const kind: Kind
    var rows: Table

    ghost predicate Valid()
      reads this
    {
      Consistent(kind, rows)
    }

    constructor (kind: Kind)
      ensures Valid() && rows == map[] && this.kind == kind
    {
      this.kind := kind;
      rows := map[];
    }

    method GetSlug(o: Instance) returns (slug: string)
      ensures slug == SlugFor(kind, rows, o.Value().row)
    {
      ghost var r := o.Value().row;
      var raw := o.title.slugified;
      if raw == "" || raw == "-" { raw := Prefix(kind); }
      while IsMainId(kind, raw)
        invariant raw != "" && Escaped(kind, raw) == Raw(kind, o.title)
        decreases IsMainId(kind, raw)
      {
        PrefixEscapes(kind, raw);
        raw := WithPrefix(kind, raw);
      }
      ghost var blocked := Blocked(kind, rows);
      var count := 0;
      slug := raw;
      while SlugExists(rows, slug) || slug in Unusable(kind)
        invariant slug != "" && slug == Candidate(kind, raw, count) && count <= |blocked|
        invariant Skipped(kind, blocked, Ids(r), raw, count)
        decreases |blocked| - count
      {
        SlugExistsIsTaken(rows, slug);
        if slug in o.outdated || slug == o.slug {
          StopIsUnique(kind, blocked, Ids(r), raw, count, Retries(kind, rows, r));
          return;
        }
        SkipNext(kind, blocked, Ids(r), raw, count);
        count := count + 1;
        slug := raw + "-" + Numeral(count);
        if IsMainId(kind, slug) { slug := WithPrefix(kind, slug); }
      }
      SlugExistsIsTaken(rows, slug);
      StopIsUnique(kind, blocked, Ids(r), raw, count, Retries(kind, rows, r));
    }

    /** What every `save` does in memory before it writes to the table. */
    method UpdateSlug(o: Instance)
      modifies o
      ensures o.Value() == InMemory(kind, rows, old(o.Value()))
    {
      hide SlugFor;
      if o.slug == "" || o.title != o.original {
        var newSlug := GetSlug(o);
        if o.slug != "" && newSlug != o.slug && o.slug !in o.outdated {
          o.outdated := o.outdated + [o.slug];
        }
        o.slug := newSlug;
        o.original := o.title;
      }
    }

    method Save(o: Instance)
      modifies this`rows, o
      ensures rows == SlugRegistry.Save(kind, old(rows), old(o.Value()))
      ensures o.Value() == InMemory(kind, old(rows), old(o.Value()))
    {
      hide SlugFor;
      UpdateSlug(o);
      rows := rows[o.pk := o.Value().row];
    }

    /** `save(update_fields=["permissions_up_to_date"])`: no column of this table is written. */
    method SavePermissionsFlag(o: Instance)
      modifies o
      ensures rows == old(rows) && o.Value() == InMemory(kind, rows, old(o.Value()))
    {
      UpdateSlug(o);
    }

    method Create(pk: string, title: Title) returns (ok: bool)
      requires Valid()
      modifies this`rows
      ensures Valid() && ok == (pk !in old(rows))
      ensures rows == Step(kind, old(rows), Op.Create(pk, title))
    {
      hide SlugFor, WellNamed, Disjoint;
      ghost var after := Step(kind, rows, Op.Create(pk, title));
      StepConsistent(kind, rows, Op.Create(pk, title));
      ok := pk !in rows;
      if ok {
        var o := new Instance(pk, Row(title, "", [], false), Title("", ""));
        Save(o);
      }
      assert rows == after;
    }

    method Update(pk: string, title: Title, original: Title) returns (ok: bool)
      requires Valid()
      modifies this`rows
      ensures Valid() && ok == Live(old(rows), pk)
      ensures rows == Step(kind, old(rows), Op.Update(pk, title, original))
    {
      hide SlugFor, WellNamed, Disjoint;
      ghost var after := Step(kind, rows, Op.Update(pk, title, original));
      StepConsistent(kind, rows, Op.Update(pk, title, original));
      ok := Live(rows, pk);
      if ok {
        var o := new Instance(pk, rows[pk], original);
        o.title := title;
        Save(o);
      }
      assert rows == after;
    }

    method Delete(pk: string, original: Title) returns (ok: bool)
      requires Valid()
      modifies this`rows
      ensures Valid() && ok == Live(old(rows), pk)
      ensures rows == Step(kind, old(rows), SoftDelete(pk, original))
    {
      hide SlugFor, WellNamed, Disjoint;
      ghost var after := Step(kind, rows, SoftDelete(pk, original));
      StepConsistent(kind, rows, SoftDelete(pk, original));
      ok := Live(rows, pk);
      if ok {
        var o := new Instance(pk, rows[pk], original);
        o.deleted := true;
        Save(o);
      }
      assert rows == after;
    }

    method Restore(pk: string, original: Title) returns (ok: bool)
      requires Valid()
      modifies this`rows
      ensures Valid() && ok == (pk in old(rows))
      ensures rows == Step(kind, old(rows), Op.Restore(pk, original))
    {
      hide SlugFor, WellNamed, Disjoint;
      ghost var after := Step(kind, rows, Op.Restore(pk, original));
      StepConsistent(kind, rows, Op.Restore(pk, original));
      ok := pk in rows;
      if ok {
        var o := new Instance(pk, rows[pk], original);
        o.deleted := false;
        Save(o);
      }
      assert rows == after;
    }

    method HardDelete(pk: string)
      requires Valid()
      modifies this`rows
      ensures Valid() && rows == Step(kind, old(rows), Op.HardDelete(pk))
    {
      hide SlugFor, WellNamed, Disjoint;
      ghost var after := Step(kind, rows, Op.HardDelete(pk));
      StepConsistent(kind, rows, Op.HardDelete(pk));
      rows := rows - {pk};
      assert rows == after;
    }

    /** The copy is saved to be inserted, then for its permissions flag, and once more when its
        contents are filled in. */
    method Duplicate(pk: string, newPk: string) returns (ok: bool)
      requires Valid()
      modifies this`rows
      ensures Valid() && ok == (Live(old(rows), pk) && newPk !in old(rows))
      ensures rows == Step(kind, old(rows), Op.Duplicate(pk, newPk))
    {
      hide SlugFor, Disjoint;
      ghost var after := Step(kind, rows, Op.Duplicate(pk, newPk));
      StepConsistent(kind, rows, Op.Duplicate(pk, newPk));
      ok := Live(rows, pk) && newPk !in rows;
      if ok {
        var copy := new Instance(newPk, rows[pk].(slug := "", outdated := []), rows[pk].title);
        Save(copy);
        assert rows == after;
        assert WellNamed(kind, rows[newPk]);
        SavePermissionsFlag(copy);
        Save(copy);
      }
      assert rows == after;
    }
  }
}
