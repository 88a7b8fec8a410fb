/**
 The keypad (src/input.rs): sixteen keys 0x0..0xF, each pressed or not.
 */
module Input {
  import opened Base

  type Key = x: int | 0 <= x < 16

  /** `Key::new`: accepts exactly the values below 16. */
  function NewKey(x: Byte): (r: Result<Key>)
    ensures r.Ok? <==> x < 16
    ensures r.Ok? ==> KeyGet(r.value) == x
    ensures r.Err? ==> r.fault == KeyOutOfRange
  {
    if x < 16 then Ok(x) else Err(KeyOutOfRange)
  }

  /** `Key::get`. */
  function KeyGet(k: Key): Byte {
    k
  }

  /** `Key::idx`: an index into the sixteen-entry key table. */
  function KeyIdx(k: Key): (r: nat)
    ensures r == KeyGet(k)
    ensures r < 16
  {
    k
  }

  /** The press state of the sixteen keys, indexed by key. */
  type Keypad = keys: seq<bool> | |keys| == 16 witness seq(16, _ => false)

  /** No key of `pad` is pressed. */
  predicate NonePressed(pad: Keypad) {
    forall k: Key :: !IsPressed(pad, k)
  }

  /** `Keypad::new`: every key released. */
  function NewKeypad(): (pad: Keypad)
    ensures NonePressed(pad)
  {
    seq(16, _ => false)
  }

  /** `Keypad::set_pressed`: records the state of one key. */
  function SetPressed(pad: Keypad, k: Key, pressed: bool): (r: Keypad)
    ensures IsPressed(r, k) == pressed
    ensures forall other: Key :: other != k ==> IsPressed(r, other) == IsPressed(pad, other)
  {
    pad[KeyIdx(k) := pressed]
  }

  /** `Keypad::is_pressed`. */
  function IsPressed(pad: Keypad, k: Key): bool {
    pad[KeyIdx(k)]
  }

  /**
   `Keypad::get_key`: the lowest-numbered pressed key, or None when no key
   is pressed.
   */
  function GetKey(pad: Keypad): (r: Option<Key>)
    ensures r.None? <==> NonePressed(pad)
    ensures r.Some? ==> IsPressed(pad, r.value)
    ensures r.Some? ==> forall k: Key :: k < r.value ==> !IsPressed(pad, k)
  {
    FirstPressedFrom(pad, 0)
  }

  /** The scan of `get_key`, starting at index `i`. */
  function FirstPressedFrom(pad: Keypad, i: nat): (r: Option<Key>)
    requires i <= 16
    ensures r.None? <==> forall k: Key :: i <= k ==> !IsPressed(pad, k)
    ensures r.Some? ==> i <= r.value && IsPressed(pad, r.value)
    ensures r.Some? ==> forall k: Key :: i <= k < r.value ==> !IsPressed(pad, k)
    decreases 16 - i
  {
    if i == 16 then None
    else if IsPressed(pad, i) then Some(i)
    else FirstPressedFrom(pad, i + 1)
  }

  /** Pressing a key makes `GetKey` report a key no higher than it. */
  lemma PressedKeyIsFound(pad: Keypad, k: Key)
    requires IsPressed(pad, k)
    ensures GetKey(pad).Some? && GetKey(pad).value <= k
  {
  }
}
