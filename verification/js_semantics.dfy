/**
 * The few pieces of JavaScript semantics the modelled code relies on:
 * how a value is turned into an object property key, which keys a plain
 * object literal already answers through its prototype, and how `%`
 * behaves on negative operands.
 */
module JsSemantics {
  import opened Wrappers

  /**
   * The properties every plain object inherits from `Object.prototype`.
   * Reading any of them from an object literal yields a function (or, for
   * `__proto__`, the prototype object itself), and all of these are truthy.
   */
  const PrototypeKeys: set<string> := {
    "constructor", "hasOwnProperty", "isPrototypeOf", "propertyIsEnumerable",
    "toLocaleString", "toString", "valueOf", "__proto__",
    "__defineGetter__", "__defineSetter__", "__lookupGetter__", "__lookupSetter__"
  }

  /**
   * The property key an optional string becomes when it indexes an object:
   * a missing value is coerced to the string "undefined".
   */
  function PropertyKey(v: Option<string>): (k: string)
    ensures v.Some? ==> k == v.value
    ensures v.None? ==> k == "undefined"
  {
    match v
    case Some(s) => s
    case None => "undefined"
  }

  /**
   * JavaScript's `a % n` for a positive integer `n`: the remainder of the
   * division truncated toward zero, so it takes the sign of `a`.
   */
  function TruncatedRemainder(a: int, n: int): (r: int)
    requires n > 0
    ensures -n < r < n
    ensures a >= 0 ==> r >= 0
    ensures a < 0 ==> r <= 0
    ensures r % n == a % n
  {
    if a >= 0 then a % n
    else
      NegatedRemainder(-a, n);
      -((-a) % n)
  }

  /** Negating a number does not change its class modulo `n` once its own remainder is negated too. */
  lemma NegatedRemainder(b: int, n: int)
    requires b > 0 && n > 0
    ensures (-(b % n)) % n == (-b) % n
  {
    var q := b / n;
    var m := b % n;
    assert b == n * q + m;
    assert -b == n * (-q) + (-m);
    ModuloMultiple(-m, -q, n);
  }

  /** Adding a multiple of `n` does not change a remainder modulo `n`. */
  lemma ModuloMultiple(x: int, k: int, n: int)
    requires n > 0
    ensures (n * k + x) % n == x % n
  {
    var y := n * k + x;
    var qx, rx := x / n, x % n;
    assert x == n * qx + rx && 0 <= rx < n;
    assert y == n * (k + qx) + rx by {
      assert n * k + n * qx == n * (k + qx);
    }
    DivModUnique(y, n, k + qx, rx);
  }

  /** Euclidean division has exactly one quotient and remainder. */
  lemma DivModUnique(y: int, n: int, q: int, r: int)
    requires n > 0 && 0 <= r < n && y == n * q + r
    ensures y % n == r
  {
    var q0, r0 := y / n, y % n;
    assert y == n * q0 + r0 && 0 <= r0 < n;
    var d := q - q0;
    assert n * d == r0 - r by {
      assert n * q - n * q0 == n * d;
    }
    assert n * (d - 1) + n == n * d == n * (d + 1) - n;
    assert d >= 1 ==> n * (d - 1) >= 0;
    assert d <= -1 ==> n * (d + 1) <= 0;
  }
}
