/**
 * The validation and control-flow fragments of examples/example.java: the
 * `Status` enum, the `Point` record's compact constructor, the classic and
 * enhanced `switch` on `localVar`, and the `for`, `while` and `do-while` loops
 * of `methodExample`. Java's `int` is 32-bit and its `++` wraps silently.
 */
module JavaFragments {
  import opened Results
  import opened Ints

  /** `Status`: each constant is built with its label. */
  datatype Status = ACTIVE | INACTIVE {
    /** `getLabel`: the label passed to the constant's constructor. */
    function Label(): (text: string)
      ensures text == "Active" <==> this == ACTIVE
      ensures text == "Inactive" <==> this == INACTIVE
    {
      match this
      case ACTIVE => "Active"
      case INACTIVE => "Inactive"
    }
  }

  /** Each label names exactly one constant. */
  lemma LabelsAreDistinct(s: Status, t: Status)
    ensures s.Label() == t.Label() <==> s == t
  {
  }

  /** The exception the compact constructor throws. */
  datatype Exception = IllegalArgumentException

  /** `record Point(int x, int y)`. */
  datatype Point = Point(x: Int32, y: Int32)

  /** `new Point(x, y)`: the compact constructor throws unless both coordinates are non-negative. */
  function NewPoint(x: Int32, y: Int32): (r: Result<Point, Exception>)
    ensures r.Ok? <==> 0 <= x && 0 <= y
    ensures r.Ok? ==> r.value.x == x && r.value.y == y
    ensures r.Err? ==> r.error == IllegalArgumentException
  {
    if x < 0 || y < 0 then Err(IllegalArgumentException) else Ok(Point(x, y))
  }

  /** The enhanced switch expression: `case 1 -> "One"; case 2 -> "Two"; default -> "Other"`. */
  function SwitchResult(n: Int32): (s: string)
    ensures s == "One" || s == "Two" || s == "Other"
    ensures s == "One" <==> n == 1
    ensures s == "Two" <==> n == 2
  {
    match n
    case 1 => "One"
    case 2 => "Two"
    case _ => "Other"
  }

  /**
   * The classic switch statement: `case 1` and `case 2` print and `break`,
   * everything else falls to `default`. Its printed line is what the enhanced
   * switch yields.
   */
  method ClassicSwitch(n: Int32) returns (printed: string)
    ensures printed == SwitchResult(n)
  {
    if n == 1 {
      printed := "One";
    } else if n == 2 {
      printed := "Two";
    } else {
      printed := "Other";
    }
  }

  /** The values of `i` that reach the print in the `for` loop, for the iterations below `i`. */
  function ForLoopPrinted(i: nat): seq<int> {
    if i == 0 then []
    else if i - 1 == 5 then ForLoopPrinted(i - 1)
    else ForLoopPrinted(i - 1) + [i - 1]
  }

  /**
   * `for (int i = 0; i < 10; i++) { if (i == 5) continue; if (i == 8) break; print(i); }`:
   * 5 is skipped and the loop leaves at 8.
   */
  method ForLoop() returns (printed: seq<int>)
    ensures printed == [0, 1, 2, 3, 4, 6, 7]
  {
    printed := [];
    var i := 0;
    while i < 10
      invariant 0 <= i <= 8
      invariant printed == ForLoopPrinted(i)
    {
      if i == 5 {
        i := i + 1;
        continue;
      }
      if i == 8 {
        break;
      }
      printed := printed + [i];
      i := i + 1;
    }
    assert ForLoopPrinted(8) == [0, 1, 2, 3, 4, 6, 7];
  }

  /** `while (localVar > 0) localVar--;`: drives a positive value to 0 and leaves others alone. */
  method WhileDown(start: Int32) returns (v: Int32)
    ensures start > 0 ==> v == 0
    ensures start <= 0 ==> v == start
  {
    v := start;
    while v > 0
      invariant start > 0 ==> 0 <= v <= start
      invariant start <= 0 ==> v == start
    {
      v := v - 1;
    }
  }

  /**
   * `do { localVar++; } while (localVar < 10);`: the body runs at least once.
   * From 9 or below the loop ends at 10; above 9 it ends after the one step, at
   * `start + 1`, except that `Integer.MAX_VALUE` wraps to the smallest `int` and
   * then climbs to 10.
   */
  method DoWhileUp(start: Int32) returns (v: Int32)
    ensures start <= 9 || start == INT32_MAX ==> v == 10
    ensures 9 < start < INT32_MAX ==> v == start + 1
    ensures v >= 10
  {
    v := WrappingIncrement(start);
    while v < 10
      invariant v <= 10 || v == WrappingIncrement(start)
      invariant WrappingIncrement(start) < 10 ==> v <= 10
      decreases 10 - v
    {
      v := v + 1;
    }
  }

  /** The local variable of `methodExample`: from 42 the `while` loop leaves 0, and the `do-while` then 10. */
  method LocalVarTrace() returns (afterWhile: Int32, afterDoWhile: Int32)
    ensures afterWhile == 0 && afterDoWhile == 10
  {
    afterWhile := WhileDown(42);
    afterDoWhile := DoWhileUp(afterWhile);
  }
}
