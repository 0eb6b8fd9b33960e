/** Eight-bit quantisation over real arithmetic. */
module Quantization {
  import opened Rows

  /** uint8 of the NaN that a vector without range (all components zero) divides to. The Go
      language leaves this conversion to the platform; dequantising ignores the byte. */
  const NAN_CODE: Code := 0

  // ----- one component

  function Clamp(value: real, min: real, max: real): real {
    if value < min then min else if value > max then max else value
  }

  lemma RatioBounds(x: real, width: real)
    requires 0.0 <= x <= width && width > 0.0
    ensures 0.0 <= x / width <= 1.0
    ensures x / width * width == x
  {
  }

  function Quantize(value: real, min: real, max: real): (code: Code)
    requires min < max
  {
    var clamped := Clamp(value, min, max);
    RatioBounds(clamped - min, max - min);
    var normalized := (clamped - min) / (max - min);
    (normalized * 255.0).Floor
  }

  function Dequantize(code: Code, min: real, max: real): real {
    min + code as real / 255.0 * (max - min)
  }

  /** A code survives the way to a component and back. */
  lemma CodeRoundTrip(code: Code, min: real, max: real)
    requires min < max
    ensures min <= Dequantize(code, min, max) <= max
    ensures Quantize(Dequantize(code, min, max), min, max) == code
  {
    var ratio := code as real / 255.0;
    var width := max - min;
    assert 0.0 <= ratio <= 1.0;
    ProductBounds(ratio, width);
    Cancel(ratio, width);
    var value := Dequantize(code, min, max);
    assert value - min == ratio * width;
    assert 0.0 <= value - min <= max - min;
    assert Clamp(value, min, max) == value;
    assert (value - min) / (max - min) == ratio;
    assert ratio * 255.0 == code as real;
  }

  // The products are named by arguments, which keeps them opaque to the solver.

  lemma ProductOrder(a: real, b: real, width: real, x: real, y: real)
    requires width > 0.0 && x == a * width && y == b * width
    ensures a <= b ==> x <= y
    ensures a < b ==> x < y
  {
    assert y - x == (b - a) * width;
    if a < b {
      assert (b - a) * width > 0.0;
    }
  }

  lemma ProductBounds(ratio: real, width: real)
    requires 0.0 <= ratio <= 1.0 && width > 0.0
    ensures 0.0 <= ratio * width <= width
  {
    ProductOrder(0.0, ratio, width, 0.0, ratio * width);
    ProductOrder(ratio, 1.0, width, ratio * width, width);
  }

  lemma Cancel(ratio: real, width: real)
    requires width > 0.0
    ensures (ratio * width) / width == ratio
  {
  }

  /** Quantising rounds down by less than one step of the range. */
  lemma QuantizeError(value: real, min: real, max: real)
    requires min < max && min <= value <= max
    ensures 0.0 <= value - Dequantize(Quantize(value, min, max), min, max) < (max - min) / 255.0
  {
    var code := Quantize(value, min, max);
    assert Clamp(value, min, max) == value;
    StepError(value - min, code as real, max - min);
  }

  lemma StepError(x: real, code: real, width: real)
    requires 0.0 <= x <= width && width > 0.0 && code <= x / width * 255.0 < code + 1.0
    ensures 0.0 <= x - code / 255.0 * width < width / 255.0
  {
    RatioBounds(x, width);
    StepBounds(x / width, code / 255.0, width, x, code / 255.0 * width, width / 255.0);
  }

  lemma StepBounds(ratio: real, step: real, width: real, x: real, low: real, unit: real)
    requires width > 0.0 && step <= ratio < step + 1.0 / 255.0
    requires x == ratio * width && low == step * width && unit == width / 255.0
    ensures 0.0 <= x - low < unit
  {
    ProductOrder(step, ratio, width, low, x);
    ProductOrder(ratio - step, 1.0 / 255.0, width, x - low, unit);
  }

  lemma QuantizeMonotone(v: real, w: real, min: real, max: real)
    requires min < max && v <= w
    ensures Quantize(v, min, max) <= Quantize(w, min, max)
  {
    var a, b := Clamp(v, min, max) - min, Clamp(w, min, max) - min;
    var width := max - min;
  }

  // ----- the range of a vector

  /** The least of zero and the components. */
  function Low(v: seq<real>): real {
    if v == [] then 0.0
    else
      var before := Low(v[..|v| - 1]);
      if v[|v| - 1] < before then v[|v| - 1] else before
  }

  /** The greatest of zero and the components. */
  function High(v: seq<real>): real {
    if v == [] then 0.0
    else
      var before := High(v[..|v| - 1]);
      if v[|v| - 1] > before then v[|v| - 1] else before
  }

  lemma {:induction false} RangeSpec(v: seq<real>)
    ensures Low(v) <= 0.0 <= High(v)
    ensures forall i :: 0 <= i < |v| ==> Low(v) <= v[i] <= High(v)
    ensures Low(v) == 0.0 || Low(v) in v
    ensures High(v) == 0.0 || High(v) in v
  {
    if v == [] {
    } else {
      RangeSpec(v[..|v| - 1]);
      assert v == v[..|v| - 1] + [v[|v| - 1]];
    }
  }

  lemma RangeUnique(v: seq<real>, low: real, high: real)
    requires low <= 0.0 <= high
    requires forall i :: 0 <= i < |v| ==> low <= v[i] <= high
    requires low == 0.0 || low in v
    requires high == 0.0 || high in v
    ensures low == Low(v) && high == High(v)
  {
    RangeSpec(v);
  }

  method RangeFloat(slice: seq<real>) returns (min: real, max: real)
    ensures min == Low(slice) && max == High(slice)
  {
    min, max := 0.0, 0.0;
    for i := 0 to |slice|
      invariant min == Low(slice[..i]) && max == High(slice[..i])
    {
      assert slice[..i + 1][..i] == slice[..i];
      if slice[i] < min {
        min := slice[i];
      }
      if slice[i] > max {
        max := slice[i];
      }
    }
    assert slice[..|slice|] == slice;
  }

  // ----- whole vectors

  function QuantizeVector(v: seq<real>): (row: Row)
    ensures |row.codes| == |v|
  {
    var min, max := Low(v), High(v);
    Row(min, max, seq(|v|, i requires 0 <= i < |v| =>
      if min < max then Quantize(v[i], min, max) else NAN_CODE))
  }

  function DequantizeVector(row: Row): (v: seq<real>)
    ensures |v| == |row.codes|
  {
    seq(|row.codes|, i requires 0 <= i < |row.codes| => Dequantize(row.codes[i], row.min, row.max))
  }

  method QuantizeVectorFloat(vector: seq<real>) returns (row: Row)
    ensures row == QuantizeVector(vector)
    ensures row.min == Low(vector) && row.max == High(vector) && |row.codes| == |vector|
    ensures row.min < row.max ==>
              forall i :: 0 <= i < |vector| ==> row.codes[i] == Quantize(vector[i], row.min, row.max)
  {
    var codes := new Code[|vector|];
    var min, max := RangeFloat(vector);
    for i := 0 to |vector|
      invariant codes[..i] == QuantizeVector(vector).codes[..i]
    {
      codes[i] := if min < max then Quantize(vector[i], min, max) else NAN_CODE;
    }
    row := Row(min, max, codes[..]);
  }

  method DequantizeVectorFloat(row: Row) returns (vector: seq<real>)
    ensures vector == DequantizeVector(row)
    ensures |vector| == |row.codes|
    ensures forall i :: 0 <= i < |vector| ==> vector[i] == Dequantize(row.codes[i], row.min, row.max)
  {
    var data := new real[|row.codes|];
    for i := 0 to |row.codes|
      invariant data[..i] == DequantizeVector(row)[..i]
    {
      data[i] := Dequantize(row.codes[i], row.min, row.max);
    }
    vector := data[..];
  }

  /** The components of a vector and their dequantised codes differ by less than one step. */
  lemma VectorError(v: seq<real>, i: nat)
    requires i < |v| && Low(v) < High(v)
    ensures 0.0 <= v[i] - DequantizeVector(QuantizeVector(v))[i] < (High(v) - Low(v)) / 255.0
    ensures QuantizeVector(v).codes[i] == Quantize(v[i], Low(v), High(v))
  {
    RangeSpec(v);
    QuantizeError(v[i], Low(v), High(v));
  }

  /** The zero-seeded range is reproduced exactly by the dequantised vector. */
  lemma RangeReproduced(v: seq<real>)
    ensures Low(DequantizeVector(QuantizeVector(v))) == Low(v)
    ensures High(DequantizeVector(QuantizeVector(v))) == High(v)
  {
    RangeSpec(v);
    var min, max := Low(v), High(v);
    var w := DequantizeVector(QuantizeVector(v));
    if min < max {
      forall i | 0 <= i < |w| ensures min <= w[i] <= max {
        CodeRoundTrip(QuantizeVector(v).codes[i], min, max);
      }
      assert min == 0.0 || min in w by {
        if min != 0.0 {
          var i :| 0 <= i < |v| && v[i] == min;
          EndsAreExact(min, max);
          assert w[i] == min;
        }
      }
      assert max == 0.0 || max in w by {
        if max != 0.0 {
          var i :| 0 <= i < |v| && v[i] == max;
          EndsAreExact(min, max);
          assert w[i] == max;
        }
      }
    } else {
      forall i | 0 <= i < |w| ensures w[i] == 0.0 {
      }
    }
    RangeUnique(w, min, max);
  }

  lemma EndsAreExact(min: real, max: real)
    requires min < max
    ensures Quantize(min, min, max) == 0 && Quantize(max, min, max) == 255
    ensures Dequantize(0, min, max) == min && Dequantize(255, min, max) == max
  {
    var width := max - min;
    assert width / width == 1.0;
    assert 0.0 / width == 0.0;
  }

  /** Quantising a dequantised vector gives back the same stored row, header included. */
  lemma QuantizeRoundTrip(v: seq<real>)
    ensures QuantizeVector(DequantizeVector(QuantizeVector(v))) == QuantizeVector(v)
  {
    RangeReproduced(v);
    var row := QuantizeVector(v);
    var again := QuantizeVector(DequantizeVector(row));
    forall i | 0 <= i < |v| ensures again.codes[i] == row.codes[i] {
      if row.min < row.max {
        CodeRoundTrip(row.codes[i], row.min, row.max);
      }
    }
  }
}
