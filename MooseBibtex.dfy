/** The citation formatting of MooseDocs' bibliography extension
    (python/MooseDocs/extensions/MooseBibtex.py, `MooseBibtex.authors`): a `\cite`, `\citet` or
    `\citep` command with comma-separated keys becomes author-year links, and every known key
    is recorded for the page's bibliography. The parsed bibliography's `entries` and each
    entry's `persons` and `fields` are pybtex's case-insensitive dictionaries; the
    `htmlStash` placeholder is the html itself. */
module MooseBibtexes {
  import opened Wrappers
  import PyStr

  datatype Command = Cite | Citet | Citep

  function CommandName(c: Command): string
  {
    match c
    case Cite => "cite"
    case Citet => "citet"
    case Citep => "citep"
  }

  /** A pybtex person, by the last names its label uses. */
  datatype Person = Person(lastNames: seq<string>)

  /** A pybtex case-insensitive dictionary, held as it looks its keys up: by the key
      lower-cased. */
  type CaseInsensitiveDict<V> = map<string, V>

  /** `k in d`. */
  predicate Has<V>(d: CaseInsensitiveDict<V>, k: string)
  {
    PyStr.Lower(k) in d
  }

  /** `d[k]`. */
  function Get<V>(d: CaseInsensitiveDict<V>, k: string): V
    requires Has(d, k)
  {
    d[PyStr.Lower(k)]
  }

  /** Two characters that are equal, or an upper-case ASCII letter and its lower-case one. */
  predicate SameUpToCase(x: char, y: char)
  {
    x == y
    || (PyStr.IsUpper(x) && y as int == x as int + 32)
    || (PyStr.IsUpper(y) && x as int == y as int + 32)
  }

  /** Keys that agree letter by letter up to ASCII case find the same value. */
  lemma {:induction false} CaseBlind<V>(d: CaseInsensitiveDict<V>, a: string, b: string)
    requires |a| == |b| && forall i :: 0 <= i < |a| ==> SameUpToCase(a[i], b[i])
    ensures Has(d, a) <==> Has(d, b)
    ensures Has(d, a) ==> Get(d, a) == Get(d, b)
  {
    var la, lb := PyStr.Lower(a), PyStr.Lower(b);
    forall i | 0 <= i < |a|
      ensures la[i] == lb[i]
    {
    }
    assert la == lb;
  }

  /** A bibliography that holds `Smith2000` knows the key `smith2000`. */
  lemma {:induction false} LowerCaseKeyFound<V>(v: V)
    ensures var d: CaseInsensitiveDict<V> := map[PyStr.Lower("Smith2000") := v];
      Has(d, "smith2000") && Get(d, "smith2000") == v
  {
    assert PyStr.Lower("Smith2000") == PyStr.Lower("smith2000") == "smith2000";
  }

  datatype Entry = Entry(persons: CaseInsensitiveDict<seq<Person>>, fields: CaseInsensitiveDict<string>)

  /** The exceptions that escape `authors`: a missing `persons` or `fields` key, and `a[0]` on
      an empty author list. */
  datatype CiteError = KeyError(key: string) | IndexError

  /** `[k.strip() for k in keys.split(',')]`. */
  function KeyList(keys: string): (ks: seq<string>)
    ensures |ks| == |PyStr.Split(keys, ',')|
  {
    var parts := PyStr.Split(keys, ',');
    seq(|parts|, i requires 0 <= i < |parts| => PyStr.Strip(parts[i], PyStr.IsSpace))
  }

  /** A key with no comma and no surrounding white space. */
  predicate CleanKey(k: string)
  {
    PyStr.Free(k, ',') && (k == [] || (!PyStr.IsSpace(k[0]) && !PyStr.IsSpace(k[|k| - 1])))
  }

  /** Writing clean keys with commas and reading them back gives the same keys. */
  lemma {:induction false} KeyListRoundTrip(ks: seq<string>)
    requires |ks| >= 1 && forall i :: 0 <= i < |ks| ==> CleanKey(ks[i])
    ensures KeyList(PyStr.Join(ks, [','])) == ks
  {
    PyStr.SplitJoin(ks, ',');
    StripAll(ks);
  }

  /** Stripping clean keys leaves them as they are. */
  lemma {:induction false} StripAll(ks: seq<string>)
    requires forall i :: 0 <= i < |ks| ==> CleanKey(ks[i])
    ensures seq(|ks|, i requires 0 <= i < |ks| => PyStr.Strip(ks[i], PyStr.IsSpace)) == ks
  {
    forall i | 0 <= i < |ks|
      ensures PyStr.Strip(ks[i], PyStr.IsSpace) == ks[i]
    {
      PyStr.StripClean(ks[i], PyStr.IsSpace);
    }
  }

  /** The author part of a link, decided by the number of authors. */
  function AuthorLabel(a: seq<Person>): (r: Result<string, CiteError>)
    ensures r.Err? <==> |a| == 0
    ensures r.Err? ==> r.error == IndexError
  {
    var n := |a|;
    if n > 2 then Ok(PyStr.Join(a[0].lastNames, " ") + " et al.")
    else if n == 2 then Ok(PyStr.Join(a[0].lastNames, " ") + " and " + PyStr.Join(a[1].lastNames, " "))
    else if n == 1 then Ok(PyStr.Join(a[0].lastNames, " "))
    else Err(IndexError)
  }

  /** One link: `author, year` for `citep`, `author (year)` otherwise, to `#key`. */
  function Link(cmd: Command, key: string, author: string, year: string): string
  {
    if cmd == Citep then "<a href=\"#" + key + "\">" + author + ", " + year + "</a>"
    else "<a href=\"#" + key + "\">" + author + " (" + year + ")</a>"
  }

  /** The link for a known key, or the exception its entry raises. */
  function Citation(cmd: Command, key: string, e: Entry): (r: Result<string, CiteError>)
    ensures r.Ok? <==> Has(e.persons, "author") && |Get(e.persons, "author")| > 0 && Has(e.fields, "year")
    ensures !Has(e.persons, "author") ==> r == Err(KeyError("author"))
    ensures Has(e.persons, "author") && |Get(e.persons, "author")| == 0 ==> r == Err(IndexError)
    ensures Has(e.persons, "author") && |Get(e.persons, "author")| > 0 && !Has(e.fields, "year") ==> r == Err(KeyError("year"))
  {
    if !Has(e.persons, "author") then Err(KeyError("author"))
    else match AuthorLabel(Get(e.persons, "author"))
      case Err(x) => Err(x)
      case Ok(author) =>
        if !Has(e.fields, "year") then Err(KeyError("year"))
        else Ok(Link(cmd, key, author, Get(e.fields, "year")))
  }

  /** The keys recorded and the links made for the keys `ks`, in order: unknown keys are
      skipped; a known key is recorded before its entry is read, and an exception ends the
      loop. */
  function Process(bib: CaseInsensitiveDict<Entry>, cmd: Command, ks: seq<string>): (seq<string>, Result<seq<string>, CiteError>)
  {
    if |ks| == 0 then ([], Ok([]))
    else Next(bib, cmd, Process(bib, cmd, ks[..|ks| - 1]), ks[|ks| - 1])
  }

  /** One turn of the key loop, from the keys recorded and the links made so far. */
  function Next(bib: CaseInsensitiveDict<Entry>, cmd: Command, sofar: (seq<string>, Result<seq<string>, CiteError>), k: string): (seq<string>, Result<seq<string>, CiteError>)
  {
    var (cited, links) := sofar;
    if links.Err? || !Has(bib, k) then (cited, links)
    else match Citation(cmd, k, Get(bib, k))
      case Err(x) => (cited + [k], Err(x))
      case Ok(link) => (cited + [k], Ok(links.value + [link]))
  }

  /** The first `i + 1` keys are the first `i` and one more turn. */
  lemma {:induction false} ProcessNext(bib: CaseInsensitiveDict<Entry>, cmd: Command, ks: seq<string>, i: nat)
    requires i < |ks|
    ensures Process(bib, cmd, ks[..i + 1]) == Next(bib, cmd, Process(bib, cmd, ks[..i]), ks[i])
  {
    assert ks[..i + 1][..i] == ks[..i];
  }

  /** The three outcomes of a turn that starts without an error. */
  lemma {:induction false} NextCases(bib: CaseInsensitiveDict<Entry>, cmd: Command, cited: seq<string>, links: seq<string>, k: string)
    ensures !Has(bib, k) ==> Next(bib, cmd, (cited, Ok(links)), k) == (cited, Ok(links))
    ensures Has(bib, k) && Citation(cmd, k, Get(bib, k)).Err? ==>
      Next(bib, cmd, (cited, Ok(links)), k) == (cited + [k], Err(Citation(cmd, k, Get(bib, k)).error))
    ensures Has(bib, k) && Citation(cmd, k, Get(bib, k)).Ok? ==>
      Next(bib, cmd, (cited, Ok(links)), k) == (cited + [k], Ok(links + [Citation(cmd, k, Get(bib, k)).value]))
  {
  }

  /** The keys of `ks` that the bibliography knows, in order and as written. */
  function Known(bib: CaseInsensitiveDict<Entry>, ks: seq<string>): (r: seq<string>)
    ensures forall k :: k in r <==> k in ks && Has(bib, k)
  {
    if |ks| == 0 then []
    else
      var r := Known(bib, ks[..|ks| - 1]);
      assert forall k :: k in ks <==> k in ks[..|ks| - 1] || k == ks[|ks| - 1];
      if Has(bib, ks[|ks| - 1]) then r + [ks[|ks| - 1]] else r
  }

  /** Without an exception, the known keys are recorded in their order of appearance, and
      each gets one link. */
  lemma {:induction false} ProcessRecordsKnown(bib: CaseInsensitiveDict<Entry>, cmd: Command, ks: seq<string>)
    requires Process(bib, cmd, ks).1.Ok?
    ensures Process(bib, cmd, ks).0 == Known(bib, ks)
    ensures |Process(bib, cmd, ks).1.value| == |Known(bib, ks)|
  {
    if |ks| > 0 {
      ProcessRecordsKnown(bib, cmd, ks[..|ks| - 1]);
    }
  }

  /** Once an exception has happened, later keys change nothing. */
  lemma {:induction false} ProcessStopsAtError(bib: CaseInsensitiveDict<Entry>, cmd: Command, ks: seq<string>, j: nat)
    requires j <= |ks| && Process(bib, cmd, ks[..j]).1.Err?
    ensures Process(bib, cmd, ks) == Process(bib, cmd, ks[..j])
    decreases |ks| - j
  {
    if j < |ks| {
      assert ks[..j + 1][..j] == ks[..j];
      ProcessStopsAtError(bib, cmd, ks, j + 1);
    } else {
      assert ks[..j] == ks;
    }
  }

  /** `cite_list` after the merge: two links become one joined by " and "; with more, the
      last one is prefixed with "and ". */
  function Merge(cites: seq<string>): (r: seq<string>)
    ensures |cites| == 2 ==> r == [cites[0] + " and " + cites[1]]
    ensures |cites| > 2 ==> |r| == |cites| && r[..|r| - 1] == cites[..|cites| - 1]
    ensures |cites| > 2 ==> r[|r| - 1] == "and " + cites[|cites| - 1]
    ensures |cites| < 2 ==> r == cites
  {
    if |cites| == 2 then
      assert PyStr.Join(cites, " and ") == cites[0] + " and " + PyStr.Join(cites[1..], " and ");
      assert PyStr.Join(cites[1..], " and ") == cites[1];
      [PyStr.Join(cites, " and ")]
    else if |cites| > 2 then cites[..|cites| - 1] + ["and " + cites[|cites| - 1]]
    else cites
  }

  lemma {:induction false} JoinSnoc(xs: seq<string>, x: string, sep: string)
    requires |xs| >= 1
    ensures PyStr.Join(xs + [x], sep) == PyStr.Join(xs, sep) + sep + x
    decreases |xs|
  {
    if |xs| == 1 {
      assert (xs + [x])[1..] == [x];
    } else {
      assert (xs + [x])[1..] == xs[1..] + [x];
      JoinSnoc(xs[1..], x, sep);
    }
  }

  /** Three or more links read "A, B, and C" (with `sep` between them). */
  lemma {:induction false} MergedList(cites: seq<string>, sep: string)
    requires |cites| > 2
    ensures PyStr.Join(Merge(cites), sep) == PyStr.Join(cites[..|cites| - 1], sep) + sep + "and " + cites[|cites| - 1]
  {
    var m := Merge(cites);
    assert m == m[..|m| - 1] + [m[|m| - 1]];
    JoinSnoc(m[..|m| - 1], m[|m| - 1], sep);
  }

  /** The html for a command: parenthesised and joined with "; " for `citep`, joined with
      ", " otherwise, and tagged with the command as written. */
  function Html(cmd: Command, keys: string, cites: seq<string>): string
  {
    var tex := "\\" + CommandName(cmd) + "{" + keys + "}";
    if cmd == Citep then "(<span data-moose-cite=\"" + tex + "\">" + PyStr.Join(Merge(cites), "; ") + "</span>)"
    else "<span data-moose-cite=\"" + tex + "\">" + PyStr.Join(Merge(cites), ", ") + "</span>"
  }

  /** The replacement for one cite command, or the exception it raises. */
  function Authors(bib: CaseInsensitiveDict<Entry>, cmd: Command, keys: string): Result<string, CiteError>
  {
    match Process(bib, cmd, KeyList(keys)).1
    case Err(x) => Err(x)
    case Ok(cites) => Ok(Html(cmd, keys, cites))
  }

  class MooseBibtex {
    /** `_bibtex.entries`. */
    const bibtex: CaseInsensitiveDict<Entry>
    /** `_citations`. */
    var citations: seq<string>

    constructor(bibtex: CaseInsensitiveDict<Entry>)
      ensures this.bibtex == bibtex && citations == []
    {
      this.bibtex := bibtex;
      citations := [];
    }

    /** `authors(match)` for the command `cmd` and the key text `keys`. */
    method AuthorsOf(cmd: Command, keys: string) returns (html: Result<string, CiteError>)
      modifies this
      ensures citations == old(citations) + Process(bibtex, cmd, KeyList(keys)).0
      ensures html == Authors(bibtex, cmd, keys)
    {
      var links := Cite(cmd, KeyList(keys));
      if links.Err? {
        return Err(links.error);
      }
      var merged := Merge(links.value);
      var tex := "\\" + CommandName(cmd) + "{" + keys + "}";
      if cmd == Citep {
        html := Ok("(<span data-moose-cite=\"" + tex + "\">" + PyStr.Join(merged, "; ") + "</span>)");
      } else {
        html := Ok("<span data-moose-cite=\"" + tex + "\">" + PyStr.Join(merged, ", ") + "</span>");
      }
    }

    /** The loop over the keys of `authors`: known keys are recorded and linked, until an
        entry raises. */
    method Cite(cmd: Command, ks: seq<string>) returns (links: Result<seq<string>, CiteError>)
      modifies this
      ensures citations == old(citations) + Process(bibtex, cmd, ks).0
      ensures links == Process(bibtex, cmd, ks).1
    {
      var citeList: seq<string> := [];
      for i := 0 to |ks|
        invariant citations == old(citations) + Process(bibtex, cmd, ks[..i]).0
        invariant Process(bibtex, cmd, ks[..i]).1 == Ok(citeList)
      {
        var key := ks[i];
        ProcessNext(bibtex, cmd, ks, i);
        NextCases(bibtex, cmd, Process(bibtex, cmd, ks[..i]).0, citeList, key);
        if !Has(bibtex, key) {
          continue;
        }
        citations := citations + [key];
        var link := Citation(cmd, key, Get(bibtex, key));
        if link.Err? {
          ProcessStopsAtError(bibtex, cmd, ks, i + 1);
          return Err(link.error);
        }
        citeList := citeList + [link.value];
      }
      assert ks[..|ks|] == ks;
      links := Ok(citeList);
    }
  }
}
