/** File-system paths as `/`-separated text, as `std::path` handles them on Unix. */
module Paths {
  import opened Wrappers
  import Strings

  /** `Path::join`: an absolute part replaces the base; otherwise one `/` separates them. */
  function Join(base: string, part: string): (r: string)
    ensures |part| > 0 && part[0] == '/' ==> r == part
    ensures (|part| == 0 || part[0] != '/') && base != [] && base[|base| - 1] != '/' ==> r == base + "/" + part
  {
    if |part| > 0 && part[0] == '/' then part
    else if base == [] then part
    else if base[|base| - 1] == '/' then base + part
    else base + "/" + part
  }

  /** `Path::starts_with`: `prefix` is `p` itself or one of its ancestors (whole components). */
  predicate StartsWith(p: string, prefix: string)
  {
    prefix == [] || p == prefix
    || (|prefix| < |p| && p[..|prefix|] == prefix && (prefix[|prefix| - 1] == '/' || p[|prefix|] == '/'))
  }

  /** A relative part joined onto a base stays under that base. */
  lemma JoinStartsWith(base: string, part: string)
    requires |part| == 0 || part[0] != '/'
    ensures StartsWith(Join(base, part), base)
  {
    var r := Join(base, part);
    if base != [] && base[|base| - 1] != '/' {
      assert r[..|base|] == base;
    } else if base != [] {
      assert r == base + part;
      assert |part| == 0 ==> r == base;
      assert r[..|base|] == base;
    }
  }

  /** Being under a directory carries over to what lies under the contents of that directory. */
  lemma StartsWithTransitive(a: string, b: string, c: string)
    requires StartsWith(a, b) && StartsWith(b, c)
    ensures StartsWith(a, c)
  {
    if c != [] && a != b && b != c {
      assert a[..|b|][..|c|] == a[..|c|];
      if c[|c| - 1] != '/' {
        assert b[|c|] == '/';
        assert a[|c|] == a[..|b|][|c|];
      }
    }
  }

  /** `Path::strip_prefix`: what is left of `p` below `base`, when `p` lies under `base`. */
  function StripPrefix(p: string, base: string): (r: Option<string>)
    ensures r.Some? <==> StartsWith(p, base)
  {
    if !StartsWith(p, base) then None
    else if base == [] then Some(p)
    else if p == base then Some([])
    else if base[|base| - 1] == '/' then Some(p[|base|..])
    else Some(p[|base| + 1..])
  }

  /** Joining a relative part onto a directory and stripping the directory again gives the part. */
  lemma StripPrefixOfJoin(base: string, part: string)
    requires base != [] && base[|base| - 1] != '/' && (|part| == 0 || part[0] != '/')
    ensures StripPrefix(Join(base, part), base) == Some(part)
  {
    JoinStartsWith(base, part);
    var p := Join(base, part);
    assert p == base + "/" + part;
    assert p[|base| + 1..] == part;
  }

  /** Two `root/a/b` paths with slash-free parts agree only part by part. */
  lemma TwoLevelInjective(root: string, a: string, b: string, c: string, d: string)
    requires root != [] && root[|root| - 1] != '/'
    requires a != [] && c != [] && '/' !in a && '/' !in c
    requires b != [] && d != [] && b[0] != '/' && d[0] != '/'
    ensures Join(Join(root, a), b) == Join(Join(root, c), d) ==> a == c && b == d
  {
    var prefix := |root| + 1;
    var x := Join(Join(root, a), b);
    var y := Join(Join(root, c), d);
    assert Join(root, a) == root + "/" + a;
    assert Join(root, c) == root + "/" + c;
    assert a[|a| - 1] in a && c[|c| - 1] in c;
    assert x == root + "/" + a + "/" + b;
    assert y == root + "/" + c + "/" + d;
    assert x[prefix..] == a + ['/'] + b;
    assert y[prefix..] == c + ['/'] + d;
    Strings.SplitOnceAt(a, b, '/');
    Strings.SplitOnceAt(c, d, '/');
  }
}
