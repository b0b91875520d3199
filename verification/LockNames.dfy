/**
 The names fslock/fslock.go gives to directories: valid lock names, the
 temporary name a lock is prepared under and the one it is released to.
 */
module LockNames {
  import Lines

  type byte = Lines.byte

  /** A universal identifier of 16 octets. */
  type Nonce = n: seq<byte> | |n| == 16 witness seq(16, _ => 0)

  predicate Lower(c: char) {
    'a' <= c <= 'z'
  }

  predicate Digit(c: char) {
    '0' <= c <= '9'
  }

  predicate AllDigits(s: string) {
    forall i :: 0 <= i < |s| ==> Digit(s[i])
  }

  /** The regular expression ^[a-z]+[a-z0-9.-]*$. */
  predicate ValidName(name: string) {
    && name != [] && Lower(name[0])
    && forall i :: 0 <= i < |name| ==> Lower(name[i]) || Digit(name[i]) || name[i] == '.' || name[i] == '-'
  }

  /** The first k characters are of [a-z], the others of [a-z0-9.-]. */
  predicate SplitsAt(name: string, k: nat) {
    && 1 <= k <= |name|
    && (forall i :: 0 <= i < k ==> 'a' <= name[i] <= 'z')
    && (forall i :: k <= i < |name| ==>
          'a' <= name[i] <= 'z' || '0' <= name[i] <= '9' || name[i] == '.' || name[i] == '-')
  }

  /** The valid names are those that split into one or more of [a-z] and any number of [a-z0-9.-]. */
  lemma ValidNameMatches(name: string)
    ensures ValidName(name) <==> exists k :: SplitsAt(name, k)
  {
    if ValidName(name) {
      assert SplitsAt(name, 1);
    }
  }

  function HexDigit(d: nat): (c: char)
    requires d < 16
    ensures c != '.'
  {
    if d < 10 then '0' + d as char else 'a' + (d - 10) as char
  }

  /** Two lower-case hexadecimal digits per byte. */
  function Hex(bytes: seq<byte>): (s: string)
    ensures |s| == 2 * |bytes|
    ensures forall i :: 0 <= i < |s| ==> s[i] != '.'
  {
    if bytes == [] then "" else
      var b := bytes[0] as int;
      [HexDigit(b / 16), HexDigit(b % 16)] + Hex(bytes[1..])
  }

  /** The name ioutil.TempDir makes for an acquisition; suffix is chosen by it. */
  function TempName(nonce: Nonce, suffix: string): string {
    "." + Hex(nonce) + suffix
  }

  /** The name a lock directory is moved to when it is released. */
  function ReleaseName(name: string, nonce: Nonce): string {
    "." + name + "." + Hex(nonce)
  }

  lemma {:induction false} HexInjective(a: seq<byte>, b: seq<byte>)
    requires |a| == |b| && Hex(a) == Hex(b)
    ensures a == b
  {
    if a == [] {
    } else {
      var x, y := a[0] as int, b[0] as int;
      assert Hex(a)[0] == HexDigit(x / 16) && Hex(a)[1] == HexDigit(x % 16);
      assert Hex(b)[0] == HexDigit(y / 16) && Hex(b)[1] == HexDigit(y % 16);
      assert Hex(a)[2..] == Hex(a[1..]) && Hex(b)[2..] == Hex(b[1..]);
      HexInjective(a[1..], b[1..]);
      assert a == [a[0]] + a[1..] && b == [b[0]] + b[1..];
    }
  }

  /** Temporary names are no lock names. */
  lemma TemporaryNotValid(name: string, nonce: Nonce, suffix: string)
    ensures !ValidName(TempName(nonce, suffix)) && !ValidName(ReleaseName(name, nonce))
  {
    assert TempName(nonce, suffix)[0] == '.' && ReleaseName(name, nonce)[0] == '.';
  }

  lemma TempNamesDiffer(a: Nonce, s: string, b: Nonce, t: string)
    requires a != b
    ensures TempName(a, s) != TempName(b, t)
  {
    assert TempName(a, s)[1..33] == Hex(a) && TempName(b, t)[1..33] == Hex(b);
    if Hex(a) == Hex(b) {
      HexInjective(a, b);
    }
  }

  lemma ReleaseNamesDiffer(n: string, a: Nonce, m: string, b: Nonce)
    requires a != b
    ensures ReleaseName(n, a) != ReleaseName(m, b)
  {
    var r, q := ReleaseName(n, a), ReleaseName(m, b);
    assert r[|r| - 32..] == Hex(a) && q[|q| - 32..] == Hex(b);
    if Hex(a) == Hex(b) {
      HexInjective(a, b);
    }
  }

  /** The second dot of a release name tells it from a temporary name. */
  lemma TempNotRelease(a: Nonce, s: string, n: string, b: Nonce)
    requires AllDigits(s)
    ensures TempName(a, s) != ReleaseName(n, b)
  {
    var t, r := TempName(a, s), ReleaseName(n, b);
    assert r[|n| + 1] == '.';
    if |n| + 1 < |t| {
      assert t[|n| + 1] != '.' by {
        if |n| + 1 < 33 {
          assert t[|n| + 1] == Hex(a)[|n|];
        } else {
          assert t[|n| + 1] == s[|n| + 1 - 33];
        }
      }
    }
  }

  /** A length that none of the names has or exceeds. */
  lemma LongerThanAll(names: set<string>) returns (n: nat)
    ensures forall name :: name in names ==> |name| < n
  {
    if names == {} {
      n := 0;
    } else {
      var name :| name in names;
      var m := LongerThanAll(names - {name});
      n := if |name| < m then m else |name| + 1;
      assert forall other :: other in names ==> other == name || other in names - {name};
    }
  }

  /** ioutil.TempDir always has a name left to make. */
  lemma FreeSuffix(names: set<string>, nonce: Nonce) returns (suffix: string)
    ensures AllDigits(suffix) && TempName(nonce, suffix) !in names
  {
    var n := LongerThanAll(names);
    suffix := seq(n, _ => '1');
    assert |TempName(nonce, suffix)| >= n;
  }
}
