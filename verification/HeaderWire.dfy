/** The name/value header block on the wire: a count, then for every entry a length-prefixed
    name and a length-prefixed value, in which NUL bytes separate joined values. */
module HeaderWire {
  import opened Base

  // ---------- length words ----------

  /** The number of values a word of `w` bytes can hold. */
  function Bound(w: nat): (r: nat)
    ensures r > 0
  {
    if w == 0 then 1 else 256 * Bound(w - 1)
  }

  /** `n` in big-endian order on `w` bytes; what does not fit is cut off. */
  function Word(n: nat, w: nat): (r: seq<byte>)
    ensures |r| == w
  {
    if w == 0 then [] else Word(n / 256, w - 1) + [n % 256]
  }

  function Number(s: seq<byte>): nat {
    if s == [] then 0 else 256 * Number(s[..|s| - 1]) + s[|s| - 1]
  }

  lemma {:induction false} WordNumber(n: nat, w: nat)
    requires n < Bound(w)
    ensures Number(Word(n, w)) == n
  {
    if w > 0 {
      WordNumber(n / 256, w - 1);
      assert Word(n, w)[..w - 1] == Word(n / 256, w - 1);
    }
  }

  lemma {:induction false} NumberWord(s: seq<byte>)
    ensures Number(s) < Bound(|s|) && Word(Number(s), |s|) == s
  {
    if s != [] {
      NumberWord(s[..|s| - 1]);
      assert s == s[..|s| - 1] + [s[|s| - 1]];
    }
  }

  lemma DivDiv(n: nat, b: nat)
    requires b > 0
    ensures n / 256 / b == n / (256 * b)
  {
    var q, r := n / 256 / b, n / 256 % b;
    assert n == 256 * (q * b + r) + n % 256 && 256 * r + n % 256 < 256 * b;
    Quotient(n, 256 * b, q, 256 * r + n % 256);
  }

  lemma Quotient(n: nat, b: nat, q: nat, r: nat)
    requires b > 0 && n == q * b + r && r < b
    ensures n / b == q
  {
    var m := n / b;
    assert m * b + n % b == n;
    Monotone(m + 1, q, b);
    Monotone(q + 1, m, b);
    Distribute(m, 1, b);
    Distribute(q, 1, b);
  }

  lemma Monotone(a: int, b: int, d: nat)
    ensures a <= b ==> a * d <= b * d
  {
  }

  lemma Distribute(a: int, b: int, d: int)
    ensures (a + b) * d == a * d + b * d
  {
  }

  /** Digit `k` of `n` written on `w` bytes in network order: the first has the highest place. */
  function Digit(n: nat, w: nat, k: nat): byte
    requires k < w
  {
    n / Bound(w - 1 - k) % 256
  }

  /** The bytes at `at` are `n` in network order. */
  predicate IsWord(s: seq<byte>, at: nat, n: nat, w: nat) {
    at + w <= |s| && forall k :: 0 <= k < w ==> s[at + k] == Digit(n, w, k)
  }

  lemma {:induction false} WordDigit(n: nat, w: nat, k: nat)
    requires k < w
    ensures Word(n, w)[k] == Digit(n, w, k)
  {
    if k < w - 1 {
      WordDigit(n / 256, w - 1, k);
      DivDiv(n, Bound(w - 2 - k));
    }
  }

  /** Words are written in network order. */
  lemma WordOrder(n: nat, w: nat, rest: seq<byte>)
    ensures IsWord(Word(n, w) + rest, 0, n, w)
  {
    forall k | 0 <= k < w ensures Word(n, w)[k] == Digit(n, w, k) {
      WordDigit(n, w, k);
    }
  }

  /** And so they are read. */
  lemma NumberOrder(s: seq<byte>, n: nat, w: nat)
    requires n < Bound(w) && IsWord(s, 0, n, w)
    ensures Number(s[..w]) == n
  {
    WordOrder(n, w, []);
    assert s[..w] == Word(n, w) by {
      forall k | 0 <= k < w ensures s[..w][k] == Word(n, w)[k] {
        WordDigit(n, w, k);
        assert s[0 + k] == Digit(n, w, k);
      }
    }
    WordNumber(n, w);
  }

  lemma {:induction false} NumberConcat(a: seq<byte>, b: seq<byte>)
    ensures Number(a + b) == Number(a) * Bound(|b|) + Number(b)
  {
    if b == [] {
      assert a + b == a;
    } else {
      var c := b[..|b| - 1];
      NumberConcat(a, c);
      assert (a + b)[..|a + b| - 1] == a + c;
      assert 256 * (Number(a) * Bound(|c|)) == Number(a) * Bound(|b|);
    }
  }

  /** The first byte that differs decides which number is less. */
  lemma NumberLess(s: seq<byte>, t: seq<byte>, k: nat)
    requires |s| == |t| && k < |s| && s[..k] == t[..k] && s[k] < t[k]
    ensures Number(s) < Number(t)
  {
    NumberCut(s, k);
    NumberCut(t, k);
    NumberWord(s[k + 1..]);
    NumberSnoc(s, k);
    NumberSnoc(t, k);
    DigitDecides(Number(s[..k + 1]), Number(t[..k + 1]), Bound(|s| - 1 - k), Number(s[k + 1..]), Number(t[k + 1..]));
  }

  lemma DigitDecides(a: int, b: int, d: nat, x: int, y: int)
    requires a < b && x < d && 0 <= y
    ensures a * d + x < b * d + y
  {
    Monotone(a + 1, b, d);
    Distribute(a, 1, d);
  }

  lemma NumberCut(s: seq<byte>, k: nat)
    requires k < |s|
    ensures Number(s) == Number(s[..k + 1]) * Bound(|s| - 1 - k) + Number(s[k + 1..])
  {
    var head, rest := s[..k + 1], s[k + 1..];
    assert s == head + rest;
    NumberConcat(head, rest);
  }

  lemma NumberSnoc(s: seq<byte>, k: nat)
    requires k < |s|
    ensures Number(s[..k + 1]) == 256 * Number(s[..k]) + s[k]
  {
    assert s[..k + 1][..k] == s[..k];
  }

  // ---------- entries and blocks ----------

  datatype Entry = Entry(name: seq<byte>, value: seq<byte>)

  function Str(s: seq<byte>, w: nat): seq<byte> {
    Word(|s|, w) + s
  }

  function EntryBytes(e: Entry, w: nat): seq<byte> {
    Str(e.name, w) + Str(e.value, w)
  }

  function Body(es: seq<Entry>, w: nat): seq<byte> {
    if es == [] then [] else EntryBytes(es[0], w) + Body(es[1..], w)
  }

  function Block(es: seq<Entry>, w: nat): seq<byte> {
    Word(|es|, w) + Body(es, w)
  }

  predicate Fits(e: Entry, w: nat) {
    |e.name| < Bound(w) && |e.value| < Bound(w)
  }

  /** The count and every length fit a word. */
  predicate FitsAll(es: seq<Entry>, w: nat) {
    |es| < Bound(w) && forall e <- es :: Fits(e, w)
  }

  // ---------- parsing ----------

  /** Cuts one length-prefixed string off the front. */
  function TakeStr(b: seq<byte>, w: nat): Option<(seq<byte>, seq<byte>)> {
    if |b| < w then None
    else
      var n := Number(b[..w]);
      if |b| - w < n then None else Some((b[w..w + n], b[w + n..]))
  }

  function TakeEntry(b: seq<byte>, w: nat): Option<(Entry, seq<byte>)> {
    match TakeStr(b, w)
    case None => None
    case Some((name, rest)) =>
      match TakeStr(rest, w)
      case None => None
      case Some((value, rest')) => Some((Entry(name, value), rest'))
  }

  /** Exactly `n` entries and nothing behind them. */
  function ParseBody(b: seq<byte>, n: nat, w: nat): Option<seq<Entry>>
    decreases n
  {
    if n == 0 then (if b == [] then Some([]) else None)
    else
      match TakeEntry(b, w)
      case None => None
      case Some((e, rest)) => Before([e], ParseBody(rest, n - 1, w))
  }

  function Before(front: seq<Entry>, rest: Option<seq<Entry>>): Option<seq<Entry>> {
    match rest
    case None => None
    case Some(es) => Some(front + es)
  }

  function Parse(b: seq<byte>, w: nat): Option<seq<Entry>> {
    if |b| < w then None else ParseBody(b[w..], Number(b[..w]), w)
  }

  lemma TakeStrOf(s: seq<byte>, rest: seq<byte>, w: nat)
    requires |s| < Bound(w)
    ensures TakeStr(Str(s, w) + rest, w) == Some((s, rest))
  {
    var b := Str(s, w) + rest;
    WordNumber(|s|, w);
    assert b[..w] == Word(|s|, w);
    assert b[w..w + |s|] == s && b[w + |s|..] == rest;
  }

  lemma TakeStrIs(b: seq<byte>, w: nat)
    requires TakeStr(b, w).Some?
    ensures var (s, rest) := TakeStr(b, w).value; |s| < Bound(w) && b == Str(s, w) + rest
  {
    NumberWord(b[..w]);
    var n := Number(b[..w]);
    assert b == b[..w] + b[w..w + n] + b[w + n..];
  }

  lemma TakeEntryOf(e: Entry, rest: seq<byte>, w: nat)
    requires Fits(e, w)
    ensures TakeEntry(EntryBytes(e, w) + rest, w) == Some((e, rest))
  {
    assert EntryBytes(e, w) + rest == Str(e.name, w) + (Str(e.value, w) + rest);
    TakeStrOf(e.name, Str(e.value, w) + rest, w);
    TakeStrOf(e.value, rest, w);
  }

  lemma TakeEntryIs(b: seq<byte>, w: nat)
    requires TakeEntry(b, w).Some?
    ensures var (e, rest) := TakeEntry(b, w).value; Fits(e, w) && b == EntryBytes(e, w) + rest
  {
    TakeStrIs(b, w);
    var (name, rest) := TakeStr(b, w).value;
    TakeStrIs(rest, w);
    var (value, rest') := TakeStr(rest, w).value;
    assert Str(name, w) + (Str(value, w) + rest') == EntryBytes(Entry(name, value), w) + rest';
  }

  lemma {:induction false} ParseBodyOf(es: seq<Entry>, w: nat)
    requires forall e <- es :: Fits(e, w)
    ensures ParseBody(Body(es, w), |es|, w) == Some(es)
  {
    if es != [] {
      TakeEntryOf(es[0], Body(es[1..], w), w);
      ParseBodyOf(es[1..], w);
      assert [es[0]] + es[1..] == es;
    }
  }

  lemma {:induction false} ParseBodyIs(b: seq<byte>, n: nat, w: nat)
    requires ParseBody(b, n, w).Some?
    ensures var es := ParseBody(b, n, w).value;
      |es| == n && (forall e <- es :: Fits(e, w)) && b == Body(es, w)
    decreases n
  {
    if n > 0 {
      TakeEntryIs(b, w);
      var (e, rest) := TakeEntry(b, w).value;
      ParseBodyIs(rest, n - 1, w);
      var es := ParseBody(b, n, w).value;
      assert es[0] == e && es[1..] == ParseBody(rest, n - 1, w).value;
    }
  }

  lemma ParseIs(b: seq<byte>, w: nat)
    requires Parse(b, w).Some?
    ensures FitsAll(Parse(b, w).value, w) && b == Block(Parse(b, w).value, w)
  {
    ParseBodyIs(b[w..], Number(b[..w]), w);
    NumberWord(b[..w]);
    assert b == b[..w] + b[w..];
  }

  lemma ParseOf(es: seq<Entry>, w: nat)
    requires FitsAll(es, w)
    ensures Parse(Block(es, w), w) == Some(es)
  {
    var b := Block(es, w);
    WordNumber(|es|, w);
    assert b[..w] == Word(|es|, w) && b[w..] == Body(es, w);
    ParseBodyOf(es, w);
  }

  /** The parser accepts exactly the blocks with nothing behind them, and finds their entries. */
  lemma ParseExact(b: seq<byte>, es: seq<Entry>, w: nat)
    ensures Parse(b, w) == Some(es) <==> FitsAll(es, w) && b == Block(es, w)
  {
    if Parse(b, w) == Some(es) {
      ParseIs(b, w);
    } else if FitsAll(es, w) && b == Block(es, w) {
      ParseOf(es, w);
    }
  }

  /** A block begins with the count and the length of the first name, in network order. */
  lemma BlockWords(es: seq<Entry>, w: nat)
    ensures IsWord(Block(es, w), 0, |es|, w)
    ensures es != [] ==> IsWord(Block(es, w), w, |es[0].name|, w)
  {
    WordOrder(|es|, w, Body(es, w));
    if es != [] {
      var rest := es[0].name + Str(es[0].value, w) + Body(es[1..], w);
      WordOrder(|es[0].name|, w, rest);
      assert Body(es, w) == Word(|es[0].name|, w) + rest;
      Shifted(Word(|es|, w), Body(es, w), |es[0].name|, w);
    }
  }

  lemma Shifted(front: seq<byte>, s: seq<byte>, n: nat, w: nat)
    requires IsWord(s, 0, n, w)
    ensures IsWord(front + s, |front|, n, w)
  {
    forall k | 0 <= k < w ensures (front + s)[|front| + k] == Digit(n, w, k) {
      assert s[0 + k] == Digit(n, w, k);
    }
  }

  /** So does what the parser accepts. */
  lemma ParsedWords(b: seq<byte>, w: nat)
    requires Parse(b, w).Some?
    ensures var es := Parse(b, w).value; IsWord(b, 0, |es|, w) && (es != [] ==> IsWord(b, w, |es[0].name|, w))
  {
    ParseIs(b, w);
    BlockWords(Parse(b, w).value, w);
  }

  // ---------- joined values ----------

  /** The parts of a value between its NUL bytes. */
  function Split(v: seq<byte>): (r: seq<seq<byte>>)
    ensures |r| > 0
  {
    if v == [] then [[]]
    else
      var parts, c := Split(v[..|v| - 1]), v[|v| - 1];
      if c == 0 then parts + [[]] else parts[|parts| - 1 := parts[|parts| - 1] + [c]]
  }

  /** Joining a NUL-free value appends it as one part. */
  lemma {:induction false} SplitJoin(x: seq<byte>, v: seq<byte>)
    requires 0 !in v
    ensures Split(x + [0] + v) == Split(x) + [v]
  {
    var all := x + [0] + v;
    if v == [] {
      assert all[..|all| - 1] == x;
    } else {
      var u := v[..|v| - 1];
      SplitJoin(x, u);
      assert all[..|all| - 1] == x + [0] + u && v == u + [v[|v| - 1]];
    }
  }

  lemma {:induction false} SplitSingle(v: seq<byte>)
    requires 0 !in v
    ensures Split(v) == [v]
  {
    if v != [] {
      SplitSingle(v[..|v| - 1]);
      assert v == v[..|v| - 1] + [v[|v| - 1]];
    }
  }

  // ---------- from pairs to entries and back ----------

  type Pair = (seq<byte>, seq<byte>)

  function WithName(name: seq<byte>, values: seq<seq<byte>>): (r: seq<Pair>)
    ensures |r| == |values|
  {
    seq(|values|, i requires 0 <= i < |values| => (name, values[i]))
  }

  /** The pairs that entries stand for. */
  function Pairs(es: seq<Entry>): seq<Pair> {
    if es == [] then [] else Pairs(es[..|es| - 1]) + WithName(es[|es| - 1].name, Split(es[|es| - 1].value))
  }

  /** The entry `e` with one more value joined on. */
  function Joined(e: Entry, v: seq<byte>): Entry {
    Entry(e.name, e.value + [0] + v)
  }

  /** Runs of pairs with one name become one entry. */
  function Group(nv: seq<Pair>): (r: seq<Entry>)
    ensures |r| <= |nv| && (nv != [] ==> r != [] && r[|r| - 1].name == nv[|nv| - 1].0)
  {
    if nv == [] then []
    else
      var n := |nv| - 1;
      var g := Group(nv[..n]);
      var (name, v) := nv[n];
      if n > 0 && nv[n - 1].0 == name then g[..|g| - 1] + [Joined(g[|g| - 1], v)] else g + [Entry(name, v)]
  }

  lemma PairsSnoc(g: seq<Entry>, e: Entry)
    ensures Pairs(g + [e]) == Pairs(g) + WithName(e.name, Split(e.value))
  {
    assert (g + [e])[..|g|] == g;
  }

  lemma WithNameSnoc(name: seq<byte>, values: seq<seq<byte>>, v: seq<byte>)
    ensures WithName(name, values + [v]) == WithName(name, values) + [(name, v)]
  {
  }

  lemma PairsJoined(g: seq<Entry>, e: Entry, v: seq<byte>)
    requires 0 !in v
    ensures Pairs(g + [Joined(e, v)]) == Pairs(g + [e]) + [(e.name, v)]
  {
    PairsSnoc(g, e);
    PairsSnoc(g, Joined(e, v));
    SplitJoin(e.value, v);
    WithNameSnoc(e.name, Split(e.value), v);
  }

  predicate Joins(nv: seq<Pair>, i: nat)
    requires i < |nv|
  {
    i > 0 && nv[i - 1].0 == nv[i].0
  }

  /** The groups `g` with one more pair. */
  predicate Extends(g: seq<Entry>, g': seq<Entry>, p: Pair, joins: bool) {
    if joins then g != [] && g[|g| - 1].name == p.0 && g' == g[..|g| - 1] + [Joined(g[|g| - 1], p.1)]
    else g' == g + [Entry(p.0, p.1)]
  }

  lemma GroupSnoc(front: seq<Pair>, p: Pair)
    ensures Extends(Group(front), Group(front + [p]), p, front != [] && front[|front| - 1].0 == p.0)
  {
    var nv := front + [p];
    assert nv[..|front|] == front;
  }

  /** What the pair number `i` adds to the groups. */
  lemma GroupStep(nv: seq<Pair>, i: nat)
    requires i < |nv|
    ensures Extends(Group(nv[..i]), Group(nv[..i + 1]), nv[i], Joins(nv, i))
  {
    GroupSnoc(nv[..i], nv[i]);
    assert nv[..i + 1] == nv[..i] + [nv[i]];
  }

  lemma PairsExtended(g: seq<Entry>, g': seq<Entry>, p: Pair, joins: bool)
    requires 0 !in p.1 && Extends(g, g', p, joins)
    ensures Pairs(g') == Pairs(g) + [p]
  {
    if joins {
      var front, e := g[..|g| - 1], g[|g| - 1];
      assert g == front + [e];
      PairsJoined(front, e, p.1);
    } else {
      PairsSnoc(g, Entry(p.0, p.1));
      SplitSingle(p.1);
    }
  }

  /** Reading grouped entries gives the list back. */
  lemma {:induction false} GroupPairs(nv: seq<Pair>)
    requires forall p <- nv :: 0 !in p.1
    ensures Pairs(Group(nv)) == nv
  {
    if nv != [] {
      var front, p := nv[..|nv| - 1], nv[|nv| - 1];
      GroupPairs(front);
      GroupSnoc(front, p);
      assert nv == front + [p];
      PairsExtended(Group(front), Group(nv), p, front != [] && front[|front| - 1].0 == p.0);
    }
  }
}
