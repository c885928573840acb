/** PHP values as the decoder builds them. */
module PhpValues {
  import opened Wrappers

  /** A double by where it came from; formatting and scaling belong to the C library. */
  datatype Dbl =
    | Nan
    | Infinite(negative: bool)
    | Exact(bits: nat)
    | SevenDigits(bits: nat)
    | Scaled(unscaled: int, width: nat, scale: nat)

  datatype Key = Index(n: nat) | Name(s: string)

  datatype Entry = Entry(key: Key, value: Php)

  /** A PHP array is its entries in order. */
  datatype Php =
    | Null
    | Bool(b: bool)
    | Long(n: int)
    | Double(d: Dbl)
    | Str(s: string)
    | Arr(entries: seq<Entry>)

  /** What PHP's own library computes: the text of a double, and JSON decoding. */
  datatype Lib = Lib(doubleText: Dbl -> string, decodeJson: string -> Option<Php>)

  function Digits(n: nat): string {
    if n < 10 then ['0' + n as char] else Digits(n / 10) + ['0' + (n % 10) as char]
  }

  function DecimalText(n: int): string {
    if n < 0 then "-" + Digits(-n) else Digits(n)
  }

  /** `zval_get_string` on anything but an array. */
  function Text(lib: Lib, v: Php): string
    requires !v.Arr?
  {
    match v
    case Null => ""
    case Bool(b) => if b then "1" else ""
    case Long(n) => DecimalText(n)
    case Double(d) => lib.doubleText(d)
    case Str(s) => s
  }

  function NextIndex(es: seq<Entry>): nat {
    if es == [] then 0 else
      var rest := NextIndex(es[..|es| - 1]);
      match es[|es| - 1].key
      case Index(n) => if n + 1 > rest then n + 1 else rest
      case Name(_) => rest
  }

  /** `add_next_index_zval`. */
  function AddNext(es: seq<Entry>, v: Php): seq<Entry> {
    es + [Entry(Index(NextIndex(es)), v)]
  }

  /** `add_assoc_zval`: overwrite in place, or append. */
  function AddAssoc(es: seq<Entry>, name: string, v: Php): seq<Entry> {
    if es == [] then [Entry(Name(name), v)]
    else if es[0].key == Name(name) then [Entry(Name(name), v)] + es[1..]
    else [es[0]] + AddAssoc(es[1..], name, v)
  }

  /** The entries 0, 1, 2, ... of a list. */
  predicate IsPacked(es: seq<Entry>, vs: seq<Php>) {
    |es| == |vs| && forall k :: 0 <= k < |es| ==> es[k] == Entry(Index(k), vs[k])
  }

  lemma {:induction false} NextOfPacked(es: seq<Entry>, vs: seq<Php>)
    requires IsPacked(es, vs)
    ensures NextIndex(es) == |es|
  {
    if es != [] {
      NextOfPacked(es[..|es| - 1], vs[..|vs| - 1]);
    }
  }
}
