/** Base-URL generation (utils/url.go) and the query strings the commands
    append to it. The commands glue query strings together by hand; ParseQuery
    is an independent reader (split on '&', then at the first '=') used to
    state which parameters such a string carries and in which order. */
module Url {

  import opened GoStrings
  import opened Wrappers

  /** The scheme and address the configuration resolves to. */
  datatype Config = Config(scheme: string, address: string)

  /** utils.URLGen: the scheme, "://", the address and the caller's path,
      glued together as they are, with no check and no normalisation. */
  function URLGen(cfg: Config, uri: string): (r: string)
    ensures |r| == |cfg.scheme| + 3 + |cfg.address| + |uri|
    ensures r[..|cfg.scheme| + 3] == cfg.scheme + "://"
    ensures r[|cfg.scheme| + 3..|r| - |uri|] == cfg.address
    ensures r[|r| - |uri|..] == uri
  {
    cfg.scheme + "://" + cfg.address + uri
  }

  /** One query parameter as the commands write it: name=value. */
  function Param(p: (string, string)): string
  {
    p.0 + "=" + p.1
  }

  /** The parameters written in order and separated by '&'. */
  function EncodeQuery(ps: seq<(string, string)>): string
  {
    if |ps| == 0 then "" else if |ps| == 1 then Param(ps[0]) else Param(ps[0]) + "&" + EncodeQuery(ps[1..])
  }

  /** Reads one parameter: the name is everything before the first '=',
      the value everything after it. */
  function ParseParam(piece: string): (p: (string, string))
  {
    var j := Index(piece, '=');
    if j < 0 then (piece, "") else (piece[..j], piece[j + 1..])
  }

  /** Reads a query string back into its parameters, in order. */
  function ParseQuery(q: string): seq<(string, string)>
  {
    var pieces := Split(q, '&');
    seq(|pieces|, k requires 0 <= k < |pieces| => ParseParam(pieces[k]))
  }

  /** Parameters that survive being written and read back: names free of
      '=' and '&', values free of '&'. Nothing is escaped on the way out, so a
      value with '&' in it would read back as more than one parameter. */
  predicate Readable(ps: seq<(string, string)>)
  {
    |ps| >= 1 && forall k :: 0 <= k < |ps| ==> '=' !in ps[k].0 && '&' !in ps[k].0 && '&' !in ps[k].1
  }

  /** url is path, then '?', then a query that reads back as ps. */
  predicate HasQuery(url: string, path: string, ps: seq<(string, string)>)
  {
    |path| < |url| && url[..|path|] == path && url[|path|] == '?' && ParseQuery(url[|path| + 1..]) == ps
  }

  lemma ParseParamOf(p: (string, string))
    requires '=' !in p.0
    ensures ParseParam(Param(p)) == p
  {
    var s := Param(p);
    IndexAfter(p.0, '=', p.1);
    assert s[..|p.0|] == p.0;
    assert s[|p.0| + 1..] == p.1;
  }

  function Params(ps: seq<(string, string)>): (r: seq<string>)
    ensures |r| == |ps|
  {
    seq(|ps|, k requires 0 <= k < |ps| => Param(ps[k]))
  }

  lemma {:induction false} EncodeQueryIsJoin(ps: seq<(string, string)>)
    ensures EncodeQuery(ps) == Join(Params(ps), '&')
    decreases |ps|
  {
    if |ps| > 1 {
      EncodeQueryIsJoin(ps[1..]);
      assert Params(ps)[1..] == Params(ps[1..]);
    }
  }

  /** Writing readable parameters and reading them back loses nothing:
      same names, same values, same order. */
  lemma ParseEncodeQuery(ps: seq<(string, string)>)
    requires Readable(ps)
    ensures ParseQuery(EncodeQuery(ps)) == ps
  {
    EncodeQueryIsJoin(ps);
    var xs := Params(ps);
    forall k | 0 <= k < |xs| ensures '&' !in xs[k] {
      assert xs[k] == ps[k].0 + "=" + ps[k].1;
    }
    SplitJoin(xs, '&');
    forall k | 0 <= k < |ps| ensures ParseParam(xs[k]) == ps[k] {
      ParseParamOf(ps[k]);
    }
  }

  /** path, '?', then the parameters in order. The commands glue such a URL
      by hand ("?a=" + x + "&b=" + y ...); this is the same string. */
  function WithQuery(path: string, ps: seq<(string, string)>): string
  {
    path + "?" + EncodeQuery(ps)
  }

  /** A URL built as path + "?" + a readable query carries exactly that query. */
  lemma HasQueryOf(path: string, ps: seq<(string, string)>)
    requires Readable(ps)
    ensures HasQuery(WithQuery(path, ps), path, ps)
  {
    var url := path + "?" + EncodeQuery(ps);
    assert url[..|path|] == path;
    assert url[|path| + 1..] == EncodeQuery(ps);
    ParseEncodeQuery(ps);
  }

  /** Nothing is escaped: a value a&b read back splits into the parameter
      name=a and a second parameter made from b. */
  lemma AmpersandInValueSplitsParameter(name: string, a: string, b: string)
    requires '=' !in name && '&' !in name && '&' !in a && '&' !in b
    ensures ParseQuery(EncodeQuery([(name, a + "&" + b)])) == [(name, a), ParseParam(b)]
  {
    var q := EncodeQuery([(name, a + "&" + b)]);
    assert q == Param((name, a)) + ['&'] + b;
    assert '&' !in Param((name, a)) by {
      assert Param((name, a)) == name + "=" + a;
    }
    SplitAfterPiece(Param((name, a)), b, '&');
    SplitNoSep(b, '&');
    ParseParamOf((name, a));
  }

  /** base, '/', then the segments separated by '/'. The commands glue
      such a path by hand (base + "/" + a + "/charts/" + b ...); this is the
      same string. */
  function WithPath(base: string, segs: seq<string>): string
  {
    base + "/" + Join(segs, '/')
  }

  /** url is base, then '/', then a path that splits into exactly segs. */
  predicate HasSegments(url: string, base: string, segs: seq<string>)
  {
    |base| < |url| && url[..|base|] == base && url[|base|] == '/' && Split(url[|base| + 1..], '/') == segs
  }

  /** A path built from segments free of '/' splits back into them: same
      segments, same order, empty ones included. */
  lemma HasSegmentsOf(base: string, segs: seq<string>)
    requires |segs| >= 1
    requires forall k :: 0 <= k < |segs| ==> '/' !in segs[k]
    ensures HasSegments(WithPath(base, segs), base, segs)
  {
    var url := WithPath(base, segs);
    assert url[..|base|] == base;
    assert url[|base| + 1..] == Join(segs, '/');
    SplitJoin(segs, '/');
  }

  /** One more segment at the end of a path. */
  lemma WithPathSnoc(base: string, segs: seq<string>, last: string)
    requires |segs| >= 1
    ensures WithPath(base, segs + [last]) == WithPath(base, segs) + "/" + last
  {
    JoinSnoc(segs, last, '/');
  }

  /** url is prefix followed by text that reads back as id. */
  predicate EndsWithId(url: string, prefix: string, id: int64)
  {
    |prefix| <= |url| && url[..|prefix|] == prefix && ParseInt(url[|prefix|..]) == Some(id as int)
  }

  /** Appending FormatInt(id) to a prefix gives a URL that ends with id. */
  lemma EndsWithIdOf(prefix: string, id: int64)
    ensures EndsWithId(prefix + FormatInt(id), prefix, id)
  {
    var url := prefix + FormatInt(id);
    assert url[..|prefix|] == prefix && url[|prefix|..] == FormatInt(id);
    ParseFormatInt(id);
  }

  /** Ending with id means exactly ending with FormatInt(id): no other text
      (a leading zero, a sign on zero, a letter, a further segment) reads
      back as an id. */
  lemma EndsWithIdIff(url: string, prefix: string, id: int64)
    ensures EndsWithId(url, prefix, id) <==> url == prefix + FormatInt(id)
  {
    if EndsWithId(url, prefix, id) {
      FormatParseInt(url[|prefix|..], id);
      assert url == url[..|prefix|] + url[|prefix|..];
    }
    if url == prefix + FormatInt(id) {
      EndsWithIdOf(prefix, id);
    }
  }
}
