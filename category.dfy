/** server/models/Category.js: the field rules of a category, the slug the
    pre-save hook derives from the name, and the ordering of the
    `getCategoriesWithCounts` report. Case mapping is modelled for ASCII
    only; every other character is a separator of the slug. */
module Category {
  import opened Common
  import Text

  datatype Category = Category(
    id: Id,
    name: string,
    slug: string,
    description: Option<string>,
    color: string,
    icon: string,
    isActive: bool)

  const MaxName := 50
  const MaxDescription := 200
  const DefaultColor := "#3B82F6"
  const DefaultIcon := "📝"

  /** `name`: required, trimmed, at most 50 characters. */
  predicate ValidName(name: string) {
    1 <= |Text.Trim(name)| <= MaxName
  }

  /** `description`: optional, at most 200 characters, not trimmed. */
  predicate ValidDescription(d: Option<string>) {
    d.None? || |d.value| <= MaxDescription
  }

  predicate IsHex(c: char) {
    ('0' <= c <= '9') || ('a' <= c <= 'f') || ('A' <= c <= 'F')
  }

  /** `/^#([A-Fa-f0-9]{6}|[A-Fa-f0-9]{3})$/`. */
  predicate ValidColor(s: string) {
    && (|s| == 7 || |s| == 4)
    && s[0] == '#'
    && forall i :: 1 <= i < |s| ==> IsHex(s[i])
  }

  /** The schema's default colour passes its own `match`. */
  lemma DefaultColorValid()
    ensures ValidColor(DefaultColor)
  {
  }

  lemma ColorExamples()
    ensures ValidColor(DefaultColor)
    ensures ValidColor("#fff") && ValidColor("#10B981")
    ensures !ValidColor("3B82F6") && !ValidColor("#12345") && !ValidColor("#GGGGGG") && !ValidColor("#")
  {
    assert !IsHex("#GGGGGG"[1]);
  }

  // ---- slug ----

  /** `toLowerCase` on one character, ASCII only. */
  function Lower(c: char): char {
    if 'A' <= c <= 'Z' then (c as int + 32) as char else c
  }

  function LowerStr(s: string): (r: string)
    ensures |r| == |s| && forall i :: 0 <= i < |s| ==> r[i] == Lower(s[i])
  {
    seq(|s|, i requires 0 <= i < |s| => Lower(s[i]))
  }

  /** `[a-z0-9]`. */
  predicate IsSlugChar(c: char) {
    ('a' <= c <= 'z') || ('0' <= c <= '9')
  }

  /** `s` holds only `[a-z0-9-]` and no `--`. */
  predicate Dashed(s: string) {
    && (forall i :: 0 <= i < |s| ==> IsSlugChar(s[i]) || s[i] == '-')
    && forall i :: 0 <= i < |s| - 1 ==> !(s[i] == '-' && s[i + 1] == '-')
  }

  /** The letters and digits of `s`, in order. */
  function Kept(s: string): (r: string)
    ensures forall c :: c in r ==> IsSlugChar(c)
  {
    if s == [] then [] else (if IsSlugChar(s[0]) then [s[0]] else []) + Kept(s[1..])
  }

  /** `.replace(/[^a-z0-9]+/g, '-')`: every maximal run of other characters
      becomes one `-`; letters and digits stay, in order. */
  function Dashify(s: string): (r: string)
    ensures Dashed(r)
    ensures r == [] <==> s == []
    ensures r != [] ==> (r[0] == '-' <==> !IsSlugChar(s[0]))
  {
    if s == [] then []
    else
      var rest := Dashify(s[1..]);
      if IsSlugChar(s[0]) then [s[0]] + rest
      else if rest != [] && rest[0] == '-' then rest
      else "-" + rest
  }

  /** `Dashify` keeps every letter and digit, in order. */
  lemma {:induction false} DashifyKeeps(s: string)
    ensures Kept(Dashify(s)) == Kept(s)
    decreases |s|
  {
    if s != [] {
      var rest := Dashify(s[1..]);
      DashifyKeeps(s[1..]);
      assert ([s[0]] + rest)[1..] == rest;
      assert ("-" + rest)[1..] == rest;
    }
  }

  /** `.replace(/(^-|-$)/g, '')`: one `-` off each end. */
  function StripDashes(t: string): (r: string)
    ensures |r| <= |t|
  {
    var a := if t != [] && t[0] == '-' then t[1..] else t;
    if a != [] && a[|a| - 1] == '-' then a[..|a| - 1] else a
  }

  /** A slug: letters, digits and single dashes, with no dash at either end. */
  predicate IsSlug(s: string) {
    Dashed(s) && (s != [] ==> s[0] != '-' && s[|s| - 1] != '-')
  }

  /** The slug of a name: lower-cased, with runs of other characters made
      single dashes and one dash taken off each end; a slug that keeps all
      the name's letters and digits. */
  function Slugify(name: string): (r: string)
    ensures IsSlug(r)
    ensures Kept(r) == Kept(LowerStr(name))
  {
    var d := Dashify(LowerStr(name));
    DashifyKeeps(LowerStr(name));
    StripKeeps(d);
    StripDashes(d)
  }

  /** The slug is the words of the lower-cased name joined by single dashes:
      a dash stands exactly where a run of separators lies between two words. */
  lemma {:induction false} SlugifyWords(name: string)
    ensures Slugify(name) == JoinDash(Words(LowerStr(name)))
    ensures forall i :: 0 <= i < |Words(LowerStr(name))| ==> IsWord(Words(LowerStr(name))[i])
  {
    StripShape(LowerStr(name));
    WordsAreWords(LowerStr(name));
  }

  /** Stripping the end dashes of a dashed string leaves a slug with the same
      letters and digits. */
  lemma {:induction false} StripKeeps(d: string)
    requires Dashed(d)
    ensures IsSlug(StripDashes(d))
    ensures Kept(StripDashes(d)) == Kept(d)
  {
    var a := if d != [] && d[0] == '-' then d[1..] else d;
    if d != [] && d[0] == '-' {
      DropFirstDash(d);
    }
    if a != [] && a[|a| - 1] == '-' {
      DropLastDash(a);
    }
  }

  /** Without its leading dash a dashed string stays dashed, keeps its
      letters and digits, and starts with neither a dash nor nothing else. */
  lemma {:induction false} DropFirstDash(d: string)
    requires Dashed(d) && d != [] && d[0] == '-'
    ensures Dashed(d[1..]) && Kept(d[1..]) == Kept(d)
    ensures d[1..] != [] ==> d[1..][0] != '-'
  {
    var a := d[1..];
    assert forall i :: 0 <= i < |a| ==> a[i] == d[i + 1];
  }

  /** Without its trailing dash a dashed string that does not start with a
      dash is a slug with the same letters and digits. */
  lemma {:induction false} DropLastDash(a: string)
    requires Dashed(a) && a != [] && a[|a| - 1] == '-' && a[0] != '-'
    ensures IsSlug(a[..|a| - 1]) && Kept(a[..|a| - 1]) == Kept(a)
  {
    var b := a[..|a| - 1];
    assert forall i :: 0 <= i < |b| ==> b[i] == a[i];
    assert Dashed(b);
    if b != [] {
      assert b[|b| - 1] == a[|a| - 2] != '-';
    }
    assert a == b + "-";
    KeptAppend(b, "-");
    assert Kept("-") == [];
  }

  lemma {:induction false} KeptAppend(a: string, b: string)
    ensures Kept(a + b) == Kept(a) + Kept(b)
  {
    if a == [] {
      assert a + b == b;
    } else {
      assert (a + b)[0] == a[0] && (a + b)[1..] == a[1..] + b;
      KeptAppend(a[1..], b);
    }
  }

  /** A dashed string is its own dashification. */
  lemma {:induction false} DashifyDashed(s: string)
    requires Dashed(s)
    ensures Dashify(s) == s
  {
    if s != [] {
      assert Dashed(s[1..]);
      DashifyDashed(s[1..]);
      if !IsSlugChar(s[0]) {
        assert s[0] == '-';
        if |s| > 1 {
          assert s[1] != '-';
        }
      }
    }
  }

  /** A slug is left as it is. */
  lemma SlugFixed(s: string)
    requires IsSlug(s)
    ensures Slugify(s) == s
  {
    assert LowerStr(s) == s;
    DashifyDashed(s);
  }

  /** Slugifying is idempotent. */
  lemma SlugIdempotent(name: string)
    ensures Slugify(Slugify(name)) == Slugify(name)
  {
    SlugFixed(Slugify(name));
  }

  /** A word followed by anything: the word is kept as it is. */
  lemma {:induction false} DashifyWordThen(w: string, r: string)
    requires forall i :: 0 <= i < |w| ==> IsSlugChar(w[i])
    ensures Dashify(w + r) == w + Dashify(r)
    decreases |w|
  {
    if w == [] {
      assert w + r == r;
    } else {
      var t := w[1..];
      assert forall i :: 0 <= i < |t| ==> t[i] == w[i + 1];
      DashifyWordThen(t, r);
      DashifyLetter(w[0], t + r);
      assert [w[0]] + (t + r) == w + r;
      assert [w[0]] + (t + Dashify(r)) == w + Dashify(r);
    }
  }

  /** One letter or digit in front is kept in front. */
  lemma {:induction false} DashifyLetter(c: char, t: string)
    requires IsSlugChar(c)
    ensures Dashify([c] + t) == [c] + Dashify(t)
  {
    assert ([c] + t)[0] == c && ([c] + t)[1..] == t;
  }

  /** A run of separators followed by nothing or by a word: one dash. */
  lemma {:induction false} DashifySepsThen(sep: string, r: string)
    requires sep != [] && forall c :: c in sep ==> !IsSlugChar(c)
    requires r != [] ==> IsSlugChar(r[0])
    ensures Dashify(sep + r) == "-" + Dashify(r)
  {
    assert (sep + r)[0] == sep[0] && (sep + r)[1..] == sep[1..] + r;
    if |sep| > 1 {
      DashifySepsThen(sep[1..], r);
    } else {
      assert sep[1..] + r == r;
    }
  }

  /** The run law: a word, a run of separators of any length, then text that
      starts with a word (or nothing) give the word, one dash, and the rest. */
  lemma {:induction false} DashifyRun(a: string, sep: string, b: string)
    requires forall c :: c in a ==> IsSlugChar(c)
    requires sep != [] && forall c :: c in sep ==> !IsSlugChar(c)
    requires b != [] ==> IsSlugChar(b[0])
    ensures Dashify(a + sep + b) == a + "-" + Dashify(b)
  {
    assert a + sep + b == a + (sep + b);
    DashifyWordThen(a, sep + b);
    DashifySepsThen(sep, b);
  }

  /** Separators at the end become one trailing dash. */
  lemma {:induction false} DashifyTrailing(a: string, sep: string)
    requires forall c :: c in a ==> IsSlugChar(c)
    requires sep != [] && forall c :: c in sep ==> !IsSlugChar(c)
    ensures Dashify(a + sep) == a + "-"
  {
    DashifyRun(a, sep, []);
    assert a + sep + [] == a + sep;
  }

  /** Two words of letters and digits joined by a run of separators. */
  lemma DashifyWords(a: string, sep: string, b: string)
    requires forall c :: c in a ==> IsSlugChar(c)
    requires forall c :: c in b ==> IsSlugChar(c)
    requires sep != [] && forall c :: c in sep ==> !IsSlugChar(c)
    requires b != []
    ensures Dashify(a + sep + b) == a + "-" + b
  {
    DashifyRun(a, sep, b);
    AllSlug(b);
  }

  // ---- the words of a name ----

  /** The length of the run of letters and digits at the front of `s`. */
  function WordLen(s: string): (n: nat)
    ensures n <= |s|
    ensures forall i :: 0 <= i < n ==> IsSlugChar(s[i])
    ensures n < |s| ==> !IsSlugChar(s[n])
  {
    if s == [] || !IsSlugChar(s[0]) then 0 else 1 + WordLen(s[1..])
  }

  /** A non-empty run of letters and digits. */
  predicate IsWord(w: string) {
    w != [] && forall i :: 0 <= i < |w| ==> IsSlugChar(w[i])
  }

  /** The words of `s`: its maximal runs of letters and digits, in order. */
  function Words(s: string): seq<string>
    decreases |s|
  {
    if s == [] then []
    else if !IsSlugChar(s[0]) then Words(s[1..])
    else
      var n := WordLen(s);
      [s[..n]] + Words(s[n..])
  }

  /** Every one of the words is a word. */
  lemma {:induction false} WordsAreWords(s: string)
    ensures forall i :: 0 <= i < |Words(s)| ==> IsWord(Words(s)[i])
    decreases |s|
  {
    if s != [] {
      if !IsSlugChar(s[0]) {
        WordsAreWords(s[1..]);
      } else {
        var n := WordLen(s);
        WordsAreWords(s[n..]);
        assert IsWord(s[..n]);
        assert Words(s) == [s[..n]] + Words(s[n..]);
      }
    }
  }

  /** There are no words exactly when there is no letter or digit. */
  lemma {:induction false} NoWordsIff(s: string)
    ensures Words(s) == [] <==> forall i :: 0 <= i < |s| ==> !IsSlugChar(s[i])
    decreases |s|
  {
    if s != [] && !IsSlugChar(s[0]) {
      NoWordsIff(s[1..]);
      assert forall i :: 1 <= i < |s| ==> s[i] == s[1..][i - 1];
    }
  }

  /** Words joined by single dashes. */
  function JoinDash(ws: seq<string>): string
    decreases |ws|
  {
    if ws == [] then [] else if |ws| == 1 then ws[0] else ws[0] + "-" + JoinDash(ws[1..])
  }

  /** Joined non-empty words neither start nor end with a dash, and are
      empty only for no words. */
  lemma {:induction false} JoinDashEnds(ws: seq<string>)
    requires forall i :: 0 <= i < |ws| ==> IsWord(ws[i])
    ensures ws != [] ==> IsWord(ws[0]) && JoinDash(ws)[0] == ws[0][0]
    ensures ws != [] ==> JoinDash(ws)[0] == ws[0][0]
    ensures ws != [] ==> IsSlugChar(JoinDash(ws)[|JoinDash(ws)| - 1])
    decreases |ws|
  {
    if |ws| == 1 {
      assert IsWord(ws[0]);
    } else if |ws| > 1 {
      JoinDashEnds(ws[1..]);
      var j := JoinDash(ws[1..]);
      assert JoinDash(ws) == ws[0] + ("-" + j);
      assert JoinDash(ws)[|JoinDash(ws)| - 1] == j[|j| - 1];
    }
  }

  /** The dash `Dashify` puts in front: one exactly when `s` starts with a separator. */
  function Lead(s: string): string {
    if s != [] && !IsSlugChar(s[0]) then "-" else ""
  }

  /** The dash `Dashify` puts behind: one exactly when `s` has a word and ends with a separator. */
  function Trail(s: string): string {
    if s != [] && !IsSlugChar(s[|s| - 1]) && Words(s) != [] then "-" else ""
  }

  /** What `Dashify` makes of `s`: the words joined by single dashes, with one
      dash for leading and one for trailing separators; only separators give one dash. */
  predicate ShapeOf(s: string) {
    if Words(s) == [] then Dashify(s) == (if s == [] then "" else "-")
    else Dashify(s) == Lead(s) + JoinDash(Words(s)) + Trail(s)
  }

  lemma {:induction false} DashifyShape(s: string)
    ensures ShapeOf(s)
    decreases |s|
  {
    if s == [] {
    } else if !IsSlugChar(s[0]) {
      DashifyShape(s[1..]);
      ShapeAfterSeparator(s);
    } else {
      DashifyShape(s[WordLen(s)..]);
      ShapeAfterWord(s);
    }
  }

  /** A separator in front merges into the dash that leads the rest, or adds one. */
  lemma {:induction false} ShapeAfterSeparator(s: string)
    requires s != [] && !IsSlugChar(s[0])
    requires ShapeOf(s[1..])
    ensures ShapeOf(s)
  {
    var t := s[1..];
    assert Words(s) == Words(t);
    if t == [] {
      assert Dashify(s) == "-";
    } else if Words(t) == [] {
      assert Dashify(t) == "-";
      assert Dashify(s) == "-";
    } else {
      WordsAreWords(t);
      JoinDashEnds(Words(t));
      assert s[|s| - 1] == t[|t| - 1];
      SeparatorThenWords(s, t, JoinDash(Words(t)));
    }
  }

  /** A separator, then text with words: one leading dash, the same words and trailing dash. */
  lemma {:induction false} SeparatorThenWords(s: string, t: string, j: string)
    requires s != [] && !IsSlugChar(s[0]) && t == s[1..] && t != []
    requires j == JoinDash(Words(t)) && j != [] && j[0] != '-'
    requires Words(s) == Words(t) && Words(t) != []
    requires s[|s| - 1] == t[|t| - 1]
    requires Dashify(t) == Lead(t) + j + Trail(t)
    ensures Dashify(s) == Lead(s) + JoinDash(Words(s)) + Trail(s)
  {
    assert Lead(s) == "-";
    assert Trail(s) == Trail(t);
    if Lead(t) == "-" {
      assert Dashify(t)[0] == '-';
      assert Dashify(s) == Dashify(t);
    } else {
      assert Dashify(t)[0] == j[0];
      assert Dashify(s) == "-" + Dashify(t);
    }
  }

  /** A word in front is kept and becomes the first joined word. */
  lemma {:induction false} ShapeAfterWord(s: string)
    requires s != [] && IsSlugChar(s[0])
    requires ShapeOf(s[WordLen(s)..])
    ensures ShapeOf(s)
  {
    var n := WordLen(s);
    var w, r := s[..n], s[n..];
    assert s == w + r;
    DashifyWordThen(w, r);
    assert Words(s) == [w] + Words(r);
    if r == [] {
      WordAlone(s);
    } else if Words(r) == [] {
      NoWordsIff(r);
      WordThenSeparators(s, w, r);
    } else {
      assert r[0] == s[n];
      assert Lead(r) == "-";
      WordThenWords(s, w, r);
    }
  }

  /** A single word is its own dashed form. */
  lemma {:induction false} WordAlone(s: string)
    requires s != [] && IsSlugChar(s[0]) && s[WordLen(s)..] == []
    ensures Words(s) == [s] && Dashify(s) == s && Lead(s) == "" && Trail(s) == ""
  {
    var n := WordLen(s);
    var w := s[..n];
    assert w == s;
    assert w + [] == s;
    DashifyWordThen(w, []);
    assert Words(s) == [w] + Words([]);
    assert s[|s| - 1] == w[n - 1];
  }

  /** A word then only separators: the word and one trailing dash. */
  lemma {:induction false} WordThenSeparators(s: string, w: string, r: string)
    requires s == w + r && w != [] && IsSlugChar(w[0])
    requires r != [] && !IsSlugChar(r[|r| - 1])
    requires Words(r) == [] && Dashify(r) == "-"
    requires Words(s) == [w] + Words(r) && Dashify(s) == w + Dashify(r)
    ensures Dashify(s) == Lead(s) + JoinDash(Words(s)) + Trail(s)
  {
    assert JoinDash(Words(s)) == w;
    assert Lead(s) == "" by {
      assert s[0] == w[0];
    }
    assert Trail(s) == "-" by {
      assert s[|s| - 1] == r[|r| - 1];
    }
  }

  /** A word then separators and more words: the word, one dash, the rest. */
  lemma {:induction false} WordThenWords(s: string, w: string, r: string)
    requires s == w + r && w != [] && IsSlugChar(w[0])
    requires r != [] && !IsSlugChar(r[0]) && Words(r) != []
    requires Words(s) == [w] + Words(r)
    requires Dashify(r) == "-" + JoinDash(Words(r)) + Trail(r)
    requires Dashify(s) == w + Dashify(r)
    ensures Dashify(s) == Lead(s) + JoinDash(Words(s)) + Trail(s)
  {
    assert Lead(s) == "" by {
      assert s[0] == w[0];
    }
    assert Trail(s) == Trail(r) by {
      assert s[|s| - 1] == r[|r| - 1];
    }
    var ws, jr := Words(s), JoinDash(Words(r));
    assert JoinDash(ws) == w + "-" + jr by {
      assert |ws| > 1 && ws[0] == w;
      assert ws[1..] == Words(r);
    }
    calc {
      Dashify(s);
      w + Dashify(r);
      w + ("-" + jr + Trail(r));
      { assert w + ("-" + jr + Trail(r)) == (w + "-" + jr) + Trail(r); }
      Lead(s) + JoinDash(ws) + Trail(s);
    }
  }

  /** Stripping the end dashes of `Dashify`'s result leaves the joined words. */
  lemma {:induction false} StripShape(s: string)
    ensures StripDashes(Dashify(s)) == JoinDash(Words(s))
  {
    DashifyShape(s);
    var ws := Words(s);
    if ws != [] {
      WordsAreWords(s);
      JoinDashEnds(ws);
      assert IsWord(ws[0]);
      StripJoined(Lead(s), JoinDash(ws), Trail(s));
    }
  }

  /** One optional dash on each side of a string that neither starts nor ends
      with a dash is what `StripDashes` takes off. */
  lemma {:induction false} StripJoined(lead: string, j: string, trail: string)
    requires lead == "" || lead == "-"
    requires trail == "" || trail == "-"
    requires j != [] && j[0] != '-' && j[|j| - 1] != '-'
    ensures StripDashes(lead + j + trail) == j
  {
    var d := lead + j + trail;
    var a := j + trail;
    if lead == "-" {
      assert d[0] == '-' && d[1..] == a;
    } else {
      assert d == a && d[0] == j[0];
    }
    if trail == "-" {
      assert a[|a| - 1] == '-' && a[..|a| - 1] == j;
    } else {
      assert a == j;
    }
  }

  lemma {:induction false} AllSlug(b: string)
    requires forall c :: c in b ==> IsSlugChar(c)
    ensures Dashify(b) == b
  {
    if b != [] {
      AllSlug(b[1..]);
    }
  }

  /** The seed's "Web Development" gets the slug "web-development". */
  lemma SlugExample()
    ensures Slugify("Web Development") == "web-development"
  {
    LowerExample();
    DashifyWords("web", " ", "development");
    StripExample();
  }

  lemma LowerExample()
    ensures LowerStr("Web Development") == "web" + " " + "development"
  {
  }

  lemma StripExample()
    ensures StripDashes("web" + "-" + "development") == "web-development"
  {
    var t := "web" + "-" + "development";
    assert t == "web-development";
    assert t[0] == 'w' && t[|t| - 1] == 't';
  }

  /** The pre-save hook: the slug is recomputed only when the name changed. */
  function PreSave(c: Category, nameModified: bool): (r: Category)
    ensures r.(slug := c.slug) == c
    ensures nameModified ==> r.slug == Slugify(c.name)
    ensures !nameModified ==> r == c
  {
    if !nameModified then c else c.(slug := Slugify(c.name))
  }

  /** The schema paths that carry validators. */
  datatype Path = NamePath | DescriptionPath | ColorPath

  /** Why a save is refused: one `ValidationError` listing every path whose
      validator failed, or the duplicate key (E11000) of a unique index,
      which the insert reports only once validation has passed. */
  datatype Refusal = ValidationError(paths: set<Path>) | DuplicateKey

  /** Whether the validator of path `p` accepts the document. */
  predicate Passes(p: Path, name: string, description: Option<string>, color: string) {
    match p
    case NamePath => ValidName(name)
    case DescriptionPath => ValidDescription(description)
    case ColorPath => ColorAccepted(color)
  }

  /** The paths whose validators fail; `save` runs them all. */
  function FailingPaths(name: string, description: Option<string>, color: string): (ps: set<Path>)
    ensures NamePath in ps <==> !ValidName(name)
    ensures DescriptionPath in ps <==> !ValidDescription(description)
    ensures ColorPath in ps <==> !ColorAccepted(color)
    ensures ps == {} <==> ValidName(name) && ValidDescription(description) && ColorAccepted(color)
  {
    set p <- {NamePath, DescriptionPath, ColorPath} | !Passes(p, name, description, color)
  }

  /** The `unique` indexes on `name` and `slug`: the insert fails (E11000)
      when a stored category has the same name or the same slug. */
  predicate Clash(c: Category, existing: seq<Category>) {
    exists i :: 0 <= i < |existing| && (existing[i].name == c.name || existing[i].slug == c.slug)
  }

  /** The `match` validator of `color`: a missing or empty value passes
      without being matched, and anything else must be a hex colour. */
  predicate ColorAccepted(color: string) {
    color == "" || ValidColor(color)
  }

  /** The document a new category is saved as: the name trimmed, a colour
      or icon that is not given (`undefined`) replaced by its default, and
      the slug set by the pre-save hook from the stored name. */
  function Saved(id: Id, name: string, description: Option<string>, color: Option<string>, icon: Option<string>)
    : (c: Category)
    ensures c.id == id && c.name == Text.Trim(name)
    ensures IsSlug(c.slug) && c.slug == Slugify(Text.Trim(name))
    ensures c.description == description
    ensures c.color == (if color.Some? then color.value else DefaultColor)
    ensures c.icon == (if icon.Some? then icon.value else DefaultIcon)
    ensures c.isActive
  {
    var stored := Category(id, Text.Trim(name), "", description,
                           if color.Some? then color.value else DefaultColor,
                           if icon.Some? then icon.value else DefaultIcon, true);
    PreSave(stored, true)
  }

  /** Saving a new category: the validators of every path run, then the
      insert is refused when `existing`, the stored categories, already
      has the saved name or slug; otherwise the `Saved` document is stored. */
  function Create(id: Id, name: string, description: Option<string>, color: Option<string>, icon: Option<string>,
                  existing: seq<Category>)
    : (r: Result<Category, Refusal>)
    ensures var failing := FailingPaths(name, description, if color.Some? then color.value else DefaultColor);
      r.Err? ==> r.error == (if failing != {} then ValidationError(failing) else DuplicateKey)
    ensures r.Ok? ==> r.value == Saved(id, name, description, color, icon) && ColorAccepted(r.value.color)
  {
    DefaultColorValid();
    var failing := FailingPaths(name, description, if color.Some? then color.value else DefaultColor);
    if failing != {} then Err(ValidationError(failing))
    else
      var saved := Saved(id, name, description, color, icon);
      if Clash(saved, existing) then Err(DuplicateKey) else Ok(saved)
  }

  /** A category is stored exactly when every validator passes and no
      stored category has the same trimmed name or the same slug. */
  lemma CreateAccepts(id: Id, name: string, description: Option<string>, color: Option<string>, icon: Option<string>,
                      existing: seq<Category>)
    ensures Create(id, name, description, color, icon, existing).Ok? <==>
      && ValidName(name) && ValidDescription(description) && (color.None? || ColorAccepted(color.value))
      && forall i :: 0 <= i < |existing| ==>
           existing[i].name != Text.Trim(name) && existing[i].slug != Slugify(Text.Trim(name))
  {
    DefaultColorValid();
    NoClash(Saved(id, name, description, color, icon), existing);
  }

  lemma NoClash(c: Category, existing: seq<Category>)
    ensures !Clash(c, existing) <==>
      forall i :: 0 <= i < |existing| ==> existing[i].name != c.name && existing[i].slug != c.slug
  {
  }


  /** A missing colour passes and the default is stored. */
  lemma MissingColorDefaults(id: Id, name: string, description: Option<string>, icon: Option<string>)
    requires ValidName(name) && ValidDescription(description)
    ensures Create(id, name, description, None, icon, []) == Ok(Saved(id, name, description, None, icon))
    ensures Saved(id, name, description, None, icon).color == DefaultColor
  {
    DefaultColorValid();
    assert FailingPaths(name, description, DefaultColor) == {};
  }

  /** An empty colour passes the `match` validator and is stored as given. */
  lemma EmptyColorKept(id: Id, name: string, description: Option<string>, icon: Option<string>)
    requires ValidName(name) && ValidDescription(description)
    ensures Create(id, name, description, Some(""), icon, []) == Ok(Saved(id, name, description, Some(""), icon))
    ensures Saved(id, name, description, Some(""), icon).color == ""
  {
    assert FailingPaths(name, description, "") == {};
  }

  /** Only a given, non-empty colour that is not a hex colour is refused;
      the default colour always passes. */
  lemma ColorRule(id: Id, name: string, description: Option<string>, icon: Option<string>)
    requires ValidName(name) && ValidDescription(description)
    ensures Create(id, name, description, None, icon, []).Ok?
    ensures Create(id, name, description, None, icon, []).value.color == DefaultColor
    ensures Create(id, name, description, Some(""), icon, []).Ok?
    ensures Create(id, name, description, Some(""), icon, []).value.color == ""
  {
    MissingColorDefaults(id, name, description, icon);
    EmptyColorKept(id, name, description, icon);
  }


  // ---- counts report ----

  /** A report row: the category and the number of posts referencing it. */
  datatype Row = Row(category: Category, postCount: nat)

  /** The posts (given by their `category` field) that reference category `id`. */
  function CountRefs(postCategories: seq<Option<Id>>, id: Id): (n: nat)
    ensures n <= |postCategories|
    ensures n == 0 <==> Some(id) !in postCategories
  {
    if postCategories == [] then 0
    else (if postCategories[0] == Some(id) then 1 else 0) + CountRefs(postCategories[1..], id)
  }

  /** Code-point order on names (the store's binary string order). */
  predicate NameLe(a: string, b: string) {
    if a == [] then true
    else if b == [] then false
    else if a[0] != b[0] then a[0] as int < b[0] as int
    else NameLe(a[1..], b[1..])
  }

  lemma {:induction false} NameLeTotal(a: string, b: string)
    ensures NameLe(a, b) || NameLe(b, a)
  {
    if a != [] && b != [] && a[0] == b[0] {
      NameLeTotal(a[1..], b[1..]);
    }
  }

  lemma {:induction false} NameLeTrans(a: string, b: string, c: string)
    requires NameLe(a, b) && NameLe(b, c)
    ensures NameLe(a, c)
  {
    if a != [] && b != [] && c != [] && a[0] == b[0] && b[0] == c[0] {
      NameLeTrans(a[1..], b[1..], c[1..]);
    }
  }

  lemma {:induction false} NameLeAntisym(a: string, b: string)
    requires NameLe(a, b) && NameLe(b, a)
    ensures a == b
  {
    if a != [] && b != [] {
      NameLeAntisym(a[1..], b[1..]);
      assert a == [a[0]] + a[1..] && b == [b[0]] + b[1..];
    }
  }

  /** `{ postCount: -1, name: 1 }`: more posts first, then by name. */
  predicate RowLe(x: Row, y: Row) {
    x.postCount > y.postCount || (x.postCount == y.postCount && NameLe(x.category.name, y.category.name))
  }

  lemma RowLeTotal(x: Row, y: Row)
    ensures RowLe(x, y) || RowLe(y, x)
  {
    NameLeTotal(x.category.name, y.category.name);
  }

  lemma RowLeTrans(x: Row, y: Row, z: Row)
    requires RowLe(x, y) && RowLe(y, z)
    ensures RowLe(x, z)
  {
    if x.postCount == y.postCount == z.postCount {
      NameLeTrans(x.category.name, y.category.name, z.category.name);
    }
  }

  /** Every row sorts no later than the next one. */
  predicate RowsSorted(rs: seq<Row>) {
    forall i :: 0 <= i < |rs| - 1 ==> RowLe(rs[i], rs[i + 1])
  }

  function InsertRow(rs: seq<Row>, x: Row): (r: seq<Row>)
    requires RowsSorted(rs)
    ensures multiset(r) == multiset(rs) + multiset{x}
    ensures RowsSorted(r)
    ensures r != [] && (r[0] == x || (rs != [] && r[0] == rs[0]))
  {
    if rs == [] then [x]
    else if RowLe(x, rs[0]) then [x] + rs
    else
      RowLeTotal(x, rs[0]);
      assert rs == [rs[0]] + rs[1..];
      var tail := InsertRow(rs[1..], x);
      [rs[0]] + tail
  }

  function SortRows(rs: seq<Row>): (r: seq<Row>)
    ensures multiset(r) == multiset(rs)
    ensures RowsSorted(r)
  {
    if rs == [] then []
    else
      assert rs == [rs[0]] + rs[1..];
      InsertRow(SortRows(rs[1..]), rs[0])
  }

  /** In a sorted report every row sorts no later than every row after it. */
  lemma {:induction false} SortedPairwise(rs: seq<Row>, i: nat, j: nat)
    requires RowsSorted(rs) && i < j < |rs|
    ensures RowLe(rs[i], rs[j])
    decreases j - i
  {
    if j > i + 1 {
      SortedPairwise(rs, i + 1, j);
      RowLeTrans(rs[i], rs[i + 1], rs[j]);
    }
  }

  function RowsOf(categories: seq<Category>, postCategories: seq<Option<Id>>): (rs: seq<Row>)
    ensures |rs| == |categories|
    ensures forall i :: 0 <= i < |rs| ==> rs[i] == Row(categories[i], CountRefs(postCategories, categories[i].id))
  {
    seq(|categories|, i requires 0 <= i < |categories| => Row(categories[i], CountRefs(postCategories, categories[i].id)))
  }

  /** `getCategoriesWithCounts`: each category once, with the number of posts
      that reference it, more posts first and by name among equals. */
  function CountsReport(categories: seq<Category>, postCategories: seq<Option<Id>>): (r: seq<Row>)
    ensures multiset(r) == multiset(RowsOf(categories, postCategories))
    ensures forall x :: x in r ==> x.category in categories && x.postCount == CountRefs(postCategories, x.category.id)
    ensures forall i, j :: 0 <= i < j < |r| ==>
      r[i].postCount >= r[j].postCount
      && (r[i].postCount == r[j].postCount ==> NameLe(r[i].category.name, r[j].category.name))
  {
    var rows := RowsOf(categories, postCategories);
    var r := SortRows(rows);
    forall x | x in r ensures x.category in categories && x.postCount == CountRefs(postCategories, x.category.id) {
      assert x in multiset(rows);
    }
    forall i, j | 0 <= i < j < |r| ensures RowLe(r[i], r[j]) {
      SortedPairwise(r, i, j);
    }
    r
  }
}
