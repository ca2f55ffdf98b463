/** helpers/path_utils.py: where the artifacts of a series live on disk. Every path is
    the fixed artifacts folder followed by `/`-separated parts. */
module PathUtils {
  import opened Text

  /** `get_base_artifacts_path()`, a raw Windows path. */
  const BasePath: string := "D:\\AOR\\artifacts"

  /** `get_series_path`: `<base>/video/<series id>`. */
  function SeriesPath(seriesId: int): (p: string)
    ensures StartsWith(p, BasePath + "/video/")
  {
    var p := BasePath + "/video/" + IntToString(seriesId);
    assert p[..|BasePath + "/video/"|] == BasePath + "/video/";
    p
  }

  /** `get_episode_path`: `<series path>/<episode>.mp4`. */
  function EpisodePath(seriesId: int, episode: int): (p: string)
    ensures StartsWith(p, SeriesPath(seriesId) + "/")
    ensures EndsWith(p, ".mp4")
  {
    var prefix := SeriesPath(seriesId) + "/";
    var p := prefix + IntToString(episode) + ".mp4";
    assert p[..|prefix|] == prefix;
    assert p[|p| - 4..] == ".mp4";
    p
  }

  /** `get_screenshot_path`: `<base>/screenshots/<series id>/<episode>_<timestamp>.jpg`. */
  function ScreenshotPath(seriesId: int, episode: int, timestamp: int): (p: string)
    ensures StartsWith(p, BasePath + "/screenshots/")
    ensures EndsWith(p, ".jpg")
  {
    var prefix := BasePath + "/screenshots/";
    var p := prefix + IntToString(seriesId) + "/" + IntToString(episode) + "_" + IntToString(timestamp) + ".jpg";
    assert p[..|prefix|] == prefix;
    assert p[|p| - 4..] == ".jpg";
    p
  }

  /** A prefix ending in `/` stays a prefix of anything it starts. */
  lemma StartsWithTransitive(s: string, p: string, q: string)
    requires StartsWith(s, p) && StartsWith(p, q)
    ensures StartsWith(s, q)
  {
    assert s[..|q|] == s[..|p|][..|q|];
  }

  /** Every path lies inside the artifacts folder. */
  lemma PathsUnderBase(seriesId: int, episode: int, timestamp: int)
    ensures StartsWith(SeriesPath(seriesId), BasePath + "/")
    ensures StartsWith(EpisodePath(seriesId, episode), BasePath + "/")
    ensures StartsWith(ScreenshotPath(seriesId, episode, timestamp), BasePath + "/")
  {
    var b := BasePath + "/";
    assert StartsWith(BasePath + "/video/", b) by {
      assert (BasePath + "/video/")[..|b|] == b;
    }
    assert StartsWith(BasePath + "/screenshots/", b) by {
      assert (BasePath + "/screenshots/")[..|b|] == b;
    }
    StartsWithTransitive(SeriesPath(seriesId), BasePath + "/video/", b);
    assert StartsWith(SeriesPath(seriesId) + "/", b) by {
      assert (SeriesPath(seriesId) + "/")[..|b|] == SeriesPath(seriesId)[..|b|];
    }
    StartsWithTransitive(EpisodePath(seriesId, episode), SeriesPath(seriesId) + "/", b);
    StartsWithTransitive(ScreenshotPath(seriesId, episode, timestamp), BasePath + "/screenshots/", b);
  }

  /** Equal strings after a common prefix are equal. */
  lemma DropPrefix(p: string, x: string, y: string)
    requires p + x == p + y
    ensures x == y
  {
    assert x == (p + x)[|p|..];
    assert y == (p + y)[|p|..];
  }

  /** Equal strings before a common suffix are equal. */
  lemma DropSuffix(x: string, y: string, q: string)
    requires x + q == y + q
    ensures x == y
  {
    assert x == (x + q)[..|x|];
    assert |x| == |y|;
    assert y == (y + q)[..|y|];
  }

  /** Two numbers joined by a separator that neither contains are read back apart. */
  lemma SplitTwo(a: string, b: string, a': string, b': string, sep: char)
    requires sep !in a && sep !in b && sep !in a' && sep !in b'
    requires a + [sep] + b == a' + [sep] + b'
    ensures a == a' && b == b'
  {
    SplitJoin([a, b], sep);
    SplitJoin([a', b'], sep);
    assert [a, b][1..] == [b] && [a', b'][1..] == [b'];
    assert Join([a, b], sep) == a + [sep] + b;
    assert Join([a', b'], sep) == a' + [sep] + b';
  }

  /** Different series get different folders. */
  lemma SeriesPathInjective(a: int, b: int)
    requires SeriesPath(a) == SeriesPath(b)
    ensures a == b
  {
    DropPrefix(BasePath + "/video/", IntToString(a), IntToString(b));
    IntToStringInjective(a, b);
  }

  /** `<base><a>/<b>.mp4` determines `a` and `b` when `a` holds no `/`. */
  lemma TwoFieldsApart(base: string, a: string, b: string, a': string, b': string)
    requires '/' !in a && '/' !in b && '/' !in a' && '/' !in b'
    requires base + a + "/" + b + ".mp4" == base + a' + "/" + b' + ".mp4"
    ensures a == a' && b == b'
  {
    assert base + a + "/" + b + ".mp4" == base + (a + ['/'] + (b + ".mp4"));
    assert base + a' + "/" + b' + ".mp4" == base + (a' + ['/'] + (b' + ".mp4"));
    DropPrefix(base, a + ['/'] + (b + ".mp4"), a' + ['/'] + (b' + ".mp4"));
    SplitTwo(a, b + ".mp4", a', b' + ".mp4", '/');
    DropSuffix(b, b', ".mp4");
  }

  /** Different episodes get different files. */
  lemma EpisodePathInjective(s1: int, e1: int, s2: int, e2: int)
    requires EpisodePath(s1, e1) == EpisodePath(s2, e2)
    ensures s1 == s2 && e1 == e2
  {
    IntToStringChars(s1, '/');
    IntToStringChars(s2, '/');
    IntToStringChars(e1, '/');
    IntToStringChars(e2, '/');
    TwoFieldsApart(BasePath + "/video/", IntToString(s1), IntToString(e1), IntToString(s2), IntToString(e2));
    IntToStringInjective(s1, s2);
    IntToStringInjective(e1, e2);
  }

  /** `<base><a>/<b>_<c>.jpg` determines `a`, `b` and `c` when none holds `/` or `_`. */
  lemma ThreeFieldsApart(base: string, a: string, b: string, c: string, a': string, b': string, c': string)
    requires '/' !in a && '/' !in b && '/' !in c && '/' !in a' && '/' !in b' && '/' !in c'
    requires '_' !in b && '_' !in c && '_' !in b' && '_' !in c'
    requires base + a + "/" + b + "_" + c + ".jpg" == base + a' + "/" + b' + "_" + c' + ".jpg"
    ensures a == a' && b == b' && c == c'
  {
    var r, r' := b + ['_'] + (c + ".jpg"), b' + ['_'] + (c' + ".jpg");
    assert base + a + "/" + b + "_" + c + ".jpg" == base + (a + ['/'] + r);
    assert base + a' + "/" + b' + "_" + c' + ".jpg" == base + (a' + ['/'] + r');
    DropPrefix(base, a + ['/'] + r, a' + ['/'] + r');
    SplitTwo(a, r, a', r', '/');
    SplitTwo(b, c + ".jpg", b', c' + ".jpg", '_');
    DropSuffix(c, c', ".jpg");
  }

  /** Different screenshots get different files. */
  lemma ScreenshotPathInjective(s1: int, e1: int, t1: int, s2: int, e2: int, t2: int)
    requires ScreenshotPath(s1, e1, t1) == ScreenshotPath(s2, e2, t2)
    ensures s1 == s2 && e1 == e2 && t1 == t2
  {
    IntToStringChars(s1, '/');
    IntToStringChars(s2, '/');
    IntToStringChars(e1, '/');
    IntToStringChars(e2, '/');
    IntToStringChars(t1, '/');
    IntToStringChars(t2, '/');
    IntToStringChars(e1, '_');
    IntToStringChars(e2, '_');
    IntToStringChars(t1, '_');
    IntToStringChars(t2, '_');
    ThreeFieldsApart(BasePath + "/screenshots/", IntToString(s1), IntToString(e1), IntToString(t1),
      IntToString(s2), IntToString(e2), IntToString(t2));
    IntToStringInjective(s1, s2);
    IntToStringInjective(e1, e2);
    IntToStringInjective(t1, t2);
  }
}
