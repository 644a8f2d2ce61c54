/** The flash key-value store: a map from `u8` keys to values whose single-key
    stores are atomic, may fail, and leave the map unchanged when they do. */
module Flash {
  import opened Prelude

  datatype Value = Bool(b: bool) | Str(s: Text)

  /** Which store attempts the flash driver carries out, by attempt number. */
  type Driver = nat -> bool

  /** The contents of the flash region and the number of stores attempted on it;
      an unmounted store sees nothing and refuses every access. */
  datatype Image = Image(mounted: bool, cells: map<Byte, Value>, attempts: nat)

  /** `FlashStore::store`. */
  function Put(d: Driver, f: Image, key: Byte, v: Value): (Image, bool) {
    if !f.mounted then (f, false)
    else if d(f.attempts) then (f.(cells := f.cells[key := v], attempts := f.attempts + 1), true)
    else (f.(attempts := f.attempts + 1), false)
  }

  /** `FlashStore::fetch::<bool>`. */
  function FetchBool(f: Image, key: Byte): Option<bool> {
    if f.mounted && key in f.cells && f.cells[key].Bool? then Some(f.cells[key].b) else None
  }

  /** `FlashStore::fetch::<String<64>>`. */
  function FetchText(f: Image, key: Byte): Option<Text> {
    if f.mounted && key in f.cells && f.cells[key].Str? then Some(f.cells[key].s) else None
  }

  /** The flash peripheral, shared by every store mounted on it. */
  class FlashChip {
    const driver: Driver
    var cells: map<Byte, Value>
    var attempts: nat

    constructor (driver: Driver, cells: map<Byte, Value>)
      ensures this.driver == driver && this.cells == cells && attempts == 0
    {
      this.driver, this.cells, attempts := driver, cells, 0;
    }

    /** One atomic item store of the map layer. */
    method StoreItem(key: Byte, v: Value) returns (ok: bool)
      modifies this
      ensures (Image(true, cells, attempts), ok) == Put(driver, old(Image(true, cells, attempts)), key, v)
    {
      ok := driver(attempts);
      if ok {
        cells := cells[key := v];
      }
      attempts := attempts + 1;
    }
  }

  class FlashStore {
    var storage: FlashChip?

    ghost function View(): Image
      reads this, storage
    {
      if storage == null then Image(false, map[], 0) else Image(true, storage.cells, storage.attempts)
    }

    ghost function TheDriver(): Driver
      reads this, storage
    {
      if storage == null then _ => false else storage.driver
    }

    constructor ()
      ensures storage == null
    {
      storage := null;
    }

    method Init(chip: FlashChip)
      modifies this
      ensures storage == chip && View() == Image(true, chip.cells, chip.attempts)
    {
      storage := chip;
    }

    method Store(key: Byte, v: Value) returns (ok: bool)
      modifies storage
      ensures (View(), ok) == Put(TheDriver(), old(View()), key, v)
      ensures storage == null ==> !ok
    {
      if storage == null {
        return false;
      }
      ok := storage.StoreItem(key, v);
    }

    method LoadBool(key: Byte) returns (v: Option<bool>)
      ensures v == FetchBool(View(), key)
      ensures storage == null ==> v == None
    {
      if storage == null {
        return None;
      }
      v := if key in storage.cells && storage.cells[key].Bool? then Some(storage.cells[key].b) else None;
    }

    method LoadText(key: Byte) returns (v: Option<Text>)
      ensures v == FetchText(View(), key)
      ensures storage == null ==> v == None
    {
      if storage == null {
        return None;
      }
      v := if key in storage.cells && storage.cells[key].Str? then Some(storage.cells[key].s) else None;
    }
  }
}
