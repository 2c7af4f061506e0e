/**
 * The one-time-code input: a row of `length` single-character cells that the
 * user fills by typing or by pasting. The cells are a fixed-size array
 * updated in place; an empty string stands for a cell that holds nothing
 * (an absent array slot renders and joins exactly like ""). `focused` is the
 * cell that last received focus from the component. The `onChange`
 * callback's argument is the value `HandleChange` returns.
 */
module InputOtp {
  import opened Common
  import opened Strings

  function Min(a: int, b: int): int {
    if a <= b then a else b
  }

  /** `cells.join("")`. */
  function Join(cells: seq<string>): string {
    if cells == [] then "" else cells[0] + Join(cells[1..])
  }

  /** `value.split("").slice(0, length)`, padded with empty cells up to `length`. */
  function InitialCells(value: string, length: nat): (cells: seq<string>)
    ensures |cells| == length
  {
    seq(length, i requires 0 <= i < length => if i < |value| then [value[i]] else "")
  }

  /** The part of a pasted text that is used: at most `length` characters. */
  function Clip(text: string, length: nat): (c: string)
    ensures |c| <= length && |c| <= |text| && c == text[..|c|]
  {
    text[..Min(|text|, length)]
  }

  /**
   * The cells after pasting `text` at `index`: pasted character `i` lands in
   * cell `index + i` when that cell exists and the character is a digit.
   */
  function Pasted(cells: seq<string>, index: nat, text: string): (r: seq<string>)
    ensures |r| == |cells|
  {
    var clip := Clip(text, |cells|);
    seq(|cells|, k requires 0 <= k < |cells| =>
      if index <= k < index + |clip| && IsDigit(clip[k - index]) then [clip[k - index]] else cells[k])
  }

  /** Where focus goes after a paste: behind the pasted text, but never past the last cell. */
  function PasteFocus(index: nat, text: string, length: nat): int {
    Min(index + |Clip(text, length)|, length - 1)
  }

  lemma {:induction false} JoinAppend(a: seq<string>, b: seq<string>)
    ensures Join(a + b) == Join(a) + Join(b)
  {
    if a == [] {
      assert a + b == b;
    } else {
      assert (a + b)[1..] == a[1..] + b;
      JoinAppend(a[1..], b);
    }
  }

  /** Cells holding one character each join to a string with one character per cell. */
  lemma {:induction false} JoinSingles(cells: seq<string>)
    requires forall k :: 0 <= k < |cells| ==> |cells[k]| == 1
    ensures |Join(cells)| == |cells|
    ensures forall k :: 0 <= k < |cells| ==> Join(cells)[k] == cells[k][0]
  {
    if cells != [] {
      JoinSingles(cells[1..]);
    }
  }

  lemma {:induction false} JoinEmpties(cells: seq<string>)
    requires forall k :: 0 <= k < |cells| ==> cells[k] == ""
    ensures Join(cells) == ""
  {
    if cells != [] {
      JoinEmpties(cells[1..]);
    }
  }

  /** The initial cells hold exactly the first `length` characters of `value`. */
  lemma InitialCellsJoin(value: string, length: nat)
    ensures Join(InitialCells(value, length)) == value[..Min(|value|, length)]
  {
    var cells := InitialCells(value, length);
    var m := Min(|value|, length);
    assert cells == cells[..m] + cells[m..];
    JoinAppend(cells[..m], cells[m..]);
    JoinSingles(cells[..m]);
    JoinEmpties(cells[m..]);
  }

  /** Pasting a whole code of digits into the first cell fills the input with that code. */
  lemma PasteWholeCode(cells: seq<string>, text: string)
    requires |text| >= |cells|
    requires forall k :: 0 <= k < |cells| ==> IsDigit(text[k])
    ensures Join(Pasted(cells, 0, text)) == text[..|cells|]
  {
    var r := Pasted(cells, 0, text);
    assert forall k :: 0 <= k < |r| ==> r[k] == [text[k]];
    JoinSingles(r);
  }

  class OtpInput {
    const length: nat
    const cells: array<string>
    var focused: Option<nat>

    ghost predicate Valid()
      reads this
    {
      cells.Length == length
    }

    /** The initial state: the first `length` characters of `value`, nothing focused. */
    constructor (length: nat, value: string)
      ensures Valid() && fresh(cells)
      ensures this.length == length && cells[..] == InitialCells(value, length) && focused == None
    {
      this.length := length;
      var initial := InitialCells(value, length);
      cells := new string[length](i requires 0 <= i < length => initial[i]);
      focused := None;
      new;
      assert cells[..] == initial;
    }

    /** The effect on a new `value` prop: a non-empty value replaces the cells. */
    method SyncValue(value: string)
      requires Valid()
      modifies cells
      ensures value != "" ==> cells[..] == InitialCells(value, length)
      ensures value == "" ==> cells[..] == old(cells[..])
    {
      if value != "" {
        var i := 0;
        while i < length
          invariant 0 <= i <= length
          invariant forall k :: 0 <= k < i ==> cells[k] == InitialCells(value, length)[k]
        {
          cells[i] := if i < |value| then [value[i]] else "";
          i := i + 1;
        }
      }
    }

    /**
     * `handleChange(index, newValue)`: a paste when more than one character
     * arrives, else a single digit or a deletion; any other single character is
     * ignored.
     */
    method HandleChange(index: nat, newValue: string) returns (emitted: Option<string>)
      requires Valid() && index < length
      modifies cells, this`focused
      ensures |newValue| > 1 ==>
                && cells[..] == Pasted(old(cells[..]), index, newValue)
                && emitted == Some(Join(cells[..]))
                && focused == Some(PasteFocus(index, newValue, length))
      ensures |newValue| == 1 && !IsDigit(newValue[0]) ==>
                cells[..] == old(cells[..]) && emitted == None && focused == old(focused)
      ensures (newValue == "" || (|newValue| == 1 && IsDigit(newValue[0]))) ==>
                && cells[..] == old(cells[..])[index := newValue]
                && emitted == Some(Join(cells[..]))
                && focused == (if newValue != "" && index < length - 1 then Some(index + 1) else old(focused))
    {
      if |newValue| > 1 {
        var pasted := Clip(newValue, length);
        var i := 0;
        while i < |pasted|
          invariant 0 <= i <= |pasted|
          invariant forall k :: 0 <= k < length ==>
                      cells[k] == if index <= k < index + i && IsDigit(pasted[k - index]) then [pasted[k - index]]
                                  else old(cells[k])
        {
          if index + i < length && IsDigit(pasted[i]) {
            cells[index + i] := [pasted[i]];
          }
          i := i + 1;
        }
        assert cells[..] == Pasted(old(cells[..]), index, newValue);
        emitted := Some(Join(cells[..]));
        focused := Some(Min(index + |pasted|, length - 1));
        return;
      }
      if newValue != "" && !IsDigit(newValue[0]) {
        return None;
      }
      cells[index] := newValue;
      emitted := Some(Join(cells[..]));
      if newValue != "" && index < length - 1 {
        focused := Some(index + 1);
      }
    }

    /** Backspace in an empty cell moves focus one cell to the left and changes no cell. */
    method HandleKeyDown(index: nat, key: string)
      requires Valid() && index < length
      modifies this`focused
      ensures focused == if key == "Backspace" && cells[index] == "" && index > 0 then Some(index - 1) else old(focused)
    {
      if key == "Backspace" && cells[index] == "" && index > 0 {
        focused := Some(index - 1);
      }
    }
  }

  /**
   * Typing a digit into a cell of a fresh input changes that cell only: the
   * emitted value is the old value with the digit in its place.
   */
  method TypeDigitIntoFreshInput(length: nat, value: string, index: nat, digit: char)
    returns (emitted: Option<string>)
    requires index < length && index < |value|
    requires IsDigit(digit)
    ensures emitted.Some? && |emitted.value| == Min(|value|, length)
    ensures emitted.value == value[..Min(|value|, length)][index := digit]
  {
    var input := new OtpInput(length, value);
    emitted := input.HandleChange(index, [digit]);
    var before := InitialCells(value, length);
    var after := before[index := [digit]];
    var m := Min(|value|, length);
    assert after == after[..m] + after[m..];
    JoinAppend(after[..m], after[m..]);
    JoinSingles(after[..m]);
    JoinEmpties(after[m..]);
  }
}
