/** The soft-delete and restore transitions of the stored entities, and the
    defaults of a new maintenance record. Instants (`deleted_at`) are
    integers supplied by the caller in place of `datetime.utcnow()`. Each
    class has a function giving its row as a value, and each transition is
    specified by a function on those values. */
module Models {
  import opened Common
  import Records

  const AssetActive := "active"
  const AssetDisposed := "disposed"

  // ---------------------------------------------------------------------
  // Row values and their transitions

  datatype UserRow = UserRow(username: string, email: string, roleId: int, isActive: bool, deletedAt: Option<int>)

  datatype AssetTypeRow = AssetTypeRow(name: string, description: Option<string>, deletedAt: Option<int>)

  /** A stored `asset` row as the soft-delete transitions see it: ids are
      integers and the price a (non-NaN) number. The form's view of a new
      row, before the database coerces it, is `AssetForm.NewAsset`. */
  datatype AssetRow = AssetRow(
    name: string,
    price: real,
    quantity: int,
    status: string,
    assetTypeId: int,
    userId: Option<int>,
    notes: Option<string>,
    deletedAt: Option<int>)

  /** `User.soft_delete`: stamped and deactivated. */
  function UserSoftDeleted(u: UserRow, now: int): UserRow
  {
    u.(deletedAt := Some(now), isActive := false)
  }

  /** `User.restore`: unstamped and active again. */
  function UserRestored(u: UserRow): UserRow
  {
    u.(deletedAt := None, isActive := true)
  }

  /** `AssetType.soft_delete` and `MaintenanceRecord.soft_delete` only stamp the row. */
  function TypeSoftDeleted(t: AssetTypeRow, now: int): AssetTypeRow
  {
    t.(deletedAt := Some(now))
  }

  function TypeRestored(t: AssetTypeRow): AssetTypeRow
  {
    t.(deletedAt := None)
  }

  /** `Asset.soft_delete`: stamped and disposed. */
  function AssetSoftDeleted(a: AssetRow, now: int): AssetRow
  {
    a.(deletedAt := Some(now), status := AssetDisposed)
  }

  /** `Asset.restore`: unstamped; a disposed asset becomes active, any other
      status stays. */
  function AssetRestored(a: AssetRow): AssetRow
  {
    a.(deletedAt := None, status := if a.status == AssetDisposed then AssetActive else a.status)
  }

  function RecordSoftDeleted(r: Records.Record, now: int): Records.Record
  {
    r.(deletedAt := Some(now))
  }

  function RecordRestored(r: Records.Record): Records.Record
  {
    r.(deletedAt := None)
  }

  // ---------------------------------------------------------------------
  // Properties of the transitions

  /** Restoring a soft-deleted user gives back the user as an active, live
      account; an account that was live and active before is exactly restored. */
  lemma UserRoundTrip(u: UserRow, now: int)
    ensures UserRestored(UserSoftDeleted(u, now)) == UserRestored(u)
    ensures u.isActive && u.deletedAt.None? ==> UserRestored(UserSoftDeleted(u, now)) == u
    ensures UserRestored(UserRestored(u)) == UserRestored(u)
    ensures UserSoftDeleted(UserSoftDeleted(u, now), now) == UserSoftDeleted(u, now)
  {
  }

  /** Soft delete then restore always leaves an asset active and live,
      whatever its status was before: a `maintenance` asset comes back
      `active`. Every other column is kept. */
  lemma AssetSoftDeleteThenRestore(a: AssetRow, now: int)
    ensures var b := AssetRestored(AssetSoftDeleted(a, now));
            && b.status == AssetActive && b.deletedAt.None?
            && b == a.(status := AssetActive, deletedAt := None)
  {
  }

  /** Restore resets `disposed` and nothing else: a status other than
      `disposed` survives it, and restoring twice is restoring once. */
  lemma AssetRestoreFacts(a: AssetRow)
    ensures AssetRestored(a).deletedAt.None?
    ensures a.status != AssetDisposed ==> AssetRestored(a) == a.(deletedAt := None)
    ensures a.status == AssetDisposed ==> AssetRestored(a) == a.(deletedAt := None, status := AssetActive)
    ensures AssetRestored(AssetRestored(a)) == AssetRestored(a)
  {
  }

  /** A maintenance asset that is soft deleted and restored does not get its
      `maintenance` status back. */
  lemma MaintenanceStatusIsLost(a: AssetRow, now: int)
    requires a.status == "maintenance" && a.deletedAt.None?
    ensures AssetRestored(AssetSoftDeleted(a, now)) != a
  {
    assert AssetRestored(AssetSoftDeleted(a, now)).status == AssetActive;
  }

  /** Asset types and maintenance records only toggle `deleted_at`: restore
      undoes soft delete on a live row and is idempotent. */
  lemma StampOnlyRoundTrip(t: AssetTypeRow, r: Records.Record, now: int)
    ensures t.deletedAt.None? ==> TypeRestored(TypeSoftDeleted(t, now)) == t
    ensures TypeRestored(TypeRestored(t)) == TypeRestored(t)
    ensures r.deletedAt.None? ==> RecordRestored(RecordSoftDeleted(r, now)) == r
    ensures RecordRestored(RecordRestored(r)) == RecordRestored(r)
  {
  }

  // ---------------------------------------------------------------------
  // The classes

  class User {
    var username: string
    var email: string
    var roleId: int
    var isActive: bool
    var deletedAt: Option<int>

    function Row(): UserRow
      reads this
    {
      UserRow(username, email, roleId, isActive, deletedAt)
    }

    /** A new user is active and not deleted. */
    constructor (username: string, email: string, roleId: int)
      ensures Row() == UserRow(username, email, roleId, true, None)
    {
      this.username := username;
      this.email := email;
      this.roleId := roleId;
      isActive := true;
      deletedAt := None;
    }

    method SoftDelete(now: int)
      modifies this
      ensures Row() == UserSoftDeleted(old(Row()), now)
    {
      deletedAt := Some(now);
      isActive := false;
    }

    method Restore()
      modifies this
      ensures Row() == UserRestored(old(Row()))
    {
      deletedAt := None;
      isActive := true;
    }
  }

  class AssetType {
    var name: string
    var description: Option<string>
    var deletedAt: Option<int>

    function Row(): AssetTypeRow
      reads this
    {
      AssetTypeRow(name, description, deletedAt)
    }

    constructor (name: string, description: Option<string>)
      ensures Row() == AssetTypeRow(name, description, None)
    {
      this.name := name;
      this.description := description;
      deletedAt := None;
    }

    method SoftDelete(now: int)
      modifies this
      ensures Row() == TypeSoftDeleted(old(Row()), now)
    {
      deletedAt := Some(now);
    }

    method Restore()
      modifies this
      ensures Row() == TypeRestored(old(Row()))
    {
      deletedAt := None;
    }
  }

  class Asset {
    var name: string
    var price: real
    var quantity: int
    var status: string
    var assetTypeId: int
    var userId: Option<int>
    var notes: Option<string>
    var deletedAt: Option<int>

    function Row(): AssetRow
      reads this
    {
      AssetRow(name, price, quantity, status, assetTypeId, userId, notes, deletedAt)
    }

    /** A new asset defaults to quantity 1 and status `active`. */
    constructor (name: string, price: real, assetTypeId: int)
      ensures Row() == AssetRow(name, price, 1, AssetActive, assetTypeId, None, None, None)
    {
      this.name := name;
      this.price := price;
      quantity := 1;
      status := AssetActive;
      this.assetTypeId := assetTypeId;
      userId := None;
      notes := None;
      deletedAt := None;
    }

    method SoftDelete(now: int)
      modifies this
      ensures Row() == AssetSoftDeleted(old(Row()), now)
    {
      deletedAt := Some(now);
      status := AssetDisposed;
    }

    method Restore()
      modifies this
      ensures Row() == AssetRestored(old(Row()))
    {
      deletedAt := None;
      if status == AssetDisposed {
        status := AssetActive;
      }
    }
  }

  class MaintenanceRecord {
    var assetId: int
    var maintenanceDate: int
    var kind: string
    var description: Option<string>
    var vendor: Option<string>
    var personInCharge: Option<string>
    var cost: nat
    var nextDue: Option<int>
    var status: string
    var deletedAt: Option<int>

    /** The record as the maintenance queries see it. */
    function Row(): Records.Record
      reads this
    {
      Records.Record(assetId, maintenanceDate, kind, description, vendor, personInCharge, cost, nextDue, status, deletedAt)
    }

    /** A new record defaults to cost 0, status `completed` and no next due
        date; `maintenanceDate` defaults to today, passed in. */
    constructor (assetId: int, maintenanceDate: int, kind: string)
      ensures Row() == Records.Record(assetId, maintenanceDate, kind, None, None, None, 0, None, Records.StatusCompleted, None)
    {
      this.assetId := assetId;
      this.maintenanceDate := maintenanceDate;
      this.kind := kind;
      description := None;
      vendor := None;
      personInCharge := None;
      cost := 0;
      nextDue := None;
      status := Records.StatusCompleted;
      deletedAt := None;
    }

    method SoftDelete(now: int)
      modifies this
      ensures Row() == RecordSoftDeleted(old(Row()), now)
    {
      deletedAt := Some(now);
    }

    method Restore()
      modifies this
      ensures Row() == RecordRestored(old(Row()))
    {
      deletedAt := None;
    }
  }
}
