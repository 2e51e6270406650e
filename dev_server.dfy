/**
 * devServer.js: the static file server used in development. It parses the
 * `_headers` file on every request, picks the file under the public
 * directory, sets Content-Type by extension and maps read errors to 404/500.
 */
module DevServer {
  import opened JsText

  /** `mimeTypes`. */
  const MimeTypes: map<string, string> := map[
    ".html" := "text/html",
    ".css" := "text/css",
    ".js" := "application/javascript",
    ".geojson" := "application/json+geojson",
    ".svg" := "image/svg+xml"]

  const DefaultContentType: string := "application/octet-stream"

  /** `mimeTypes[ext] || "application/octet-stream"`: the table's entry for a
      known extension, the generic binary type for any other. */
  function ContentType(ext: string): (r: string)
    ensures ext in MimeTypes ==> r == MimeTypes[ext]
    ensures ext !in MimeTypes ==> r == DefaultContentType
    ensures r != ""
  {
    if ext in MimeTypes && MimeTypes[ext] != "" then MimeTypes[ext] else DefaultContentType
  }

  /** One line of `_headers` as `[key, value]`: split at the first colon and
      both sides trimmed. Without a colon `indexOf` is -1, so the key is the
      line minus its last character and the value the whole line. */
  function HeaderEntry(line: string): (entry: (string, string))
    ensures ':' !in entry.0
    ensures VisibleEnds(entry.0) && VisibleEnds(entry.1)
  {
    (HeaderKey(line), HeaderValue(line))
  }

  /** The key: the text before the first colon, trimmed. */
  function HeaderKey(line: string): (key: string)
    ensures ':' !in key
    ensures VisibleEnds(key)
  {
    KeyBeforeColon(line);
    Trim(SliceTo(line, IndexOf(line, ':')))
  }

  /** The value: the text after the first colon, trimmed. */
  function HeaderValue(line: string): (value: string)
    ensures VisibleEnds(value)
  {
    Trim(SliceFrom(line, IndexOf(line, ':') + 1))
  }

  /** What precedes the first colon, or the line minus its last character
      when there is none, holds no colon, trimmed or not. */
  lemma KeyBeforeColon(line: string)
    ensures ':' !in Trim(SliceTo(line, IndexOf(line, ':')))
  {
    var key := SliceTo(line, IndexOf(line, ':'));
    assert ':' !in key by {
      if IndexOf(line, ':') < 0 {
        forall k | 0 <= k < |key|
          ensures key[k] != ':'
        {
          assert key[k] == line[k];
        }
      }
    }
    TrimWithin(key);
  }

  /** A line is split at its first colon, so the value may itself hold colons. */
  lemma SplitAtFirstColon(key: string, value: string)
    requires ':' !in key
    ensures HeaderEntry(key + ":" + value) == (Trim(key), Trim(value))
  {
    var line := key + ":" + value;
    IndexOfAfterPiece(key, ':', value);
    assert line[..|key|] == key && line[|key| + 1..] == value;
  }

  /** A line without a colon: the key is the line minus its last character, the value the whole line. */
  lemma LineWithoutColon(line: string)
    requires ':' !in line
    ensures HeaderEntry(line) == (Trim(line[..if line == [] then 0 else |line| - 1]), Trim(line))
  {
    assert line[0..] == line;
  }

  /** `Object.fromEntries`: each entry in turn, so a later entry with the same key replaces an earlier one. */
  function FromEntries(entries: seq<(string, string)>): map<string, string> {
    if entries == [] then map[]
    else FromEntries(entries[..|entries| - 1])[entries[|entries| - 1].0 := entries[|entries| - 1].1]
  }

  /** Every key of the object comes from an entry, and every entry's key is in it. */
  lemma {:induction false} FromEntriesKeys(entries: seq<(string, string)>)
    ensures FromEntries(entries).Keys == set e | e in entries :: e.0
  {
    if entries != [] {
      var init := entries[..|entries| - 1];
      FromEntriesKeys(init);
      assert entries == init + [entries[|entries| - 1]];
    }
  }

  /** The value under a key is that of the last entry with the key. */
  lemma {:induction false} FromEntriesLastWins(entries: seq<(string, string)>, i: nat)
    requires i < |entries|
    requires forall j :: i < j < |entries| ==> entries[j].0 != entries[i].0
    ensures entries[i].0 in FromEntries(entries) && FromEntries(entries)[entries[i].0] == entries[i].1
  {
    if i < |entries| - 1 {
      FromEntriesLastWins(entries[..|entries| - 1], i);
    }
  }

  /** The lines that become headers: the trimmed file split at line feeds, without its first line. */
  function HeaderLines(content: string): seq<string> {
    Split(Trim(content), '\n')[1..]
  }

  function Entries(lines: seq<string>): (entries: seq<(string, string)>)
    ensures |entries| == |lines| && forall i :: 0 <= i < |lines| ==> entries[i] == HeaderEntry(lines[i])
  {
    seq(|lines|, i requires 0 <= i < |lines| => HeaderEntry(lines[i]))
  }

  /** Every pair of the object is one of the entries. */
  lemma {:induction false} FromEntriesPairs(entries: seq<(string, string)>)
    ensures forall k :: k in FromEntries(entries) ==> (k, FromEntries(entries)[k]) in entries
  {
    if entries != [] {
      var init := entries[..|entries| - 1];
      FromEntriesPairs(init);
      assert entries == init + [entries[|entries| - 1]];
    }
  }

  /** The object built from some lines has exactly the lines' keys, each with the value of one of them. */
  lemma ParsedLines(lines: seq<string>)
    ensures forall k :: k in FromEntries(Entries(lines)) <==> exists line :: line in lines && HeaderEntry(line).0 == k
    ensures forall k :: k in FromEntries(Entries(lines)) ==>
              exists line :: line in lines && HeaderEntry(line) == (k, FromEntries(Entries(lines))[k])
  {
    var entries := Entries(lines);
    var headers := FromEntries(entries);
    FromEntriesKeys(entries);
    FromEntriesPairs(entries);
    forall k | k in headers
      ensures exists line :: line in lines && HeaderEntry(line) == (k, headers[k])
    {
      var i :| 0 <= i < |entries| && entries[i] == (k, headers[k]);
      assert lines[i] in lines;
    }
    forall line | line in lines
      ensures HeaderEntry(line).0 in headers
    {
      var i :| 0 <= i < |lines| && lines[i] == line;
      assert entries[i] in entries;
    }
  }

  /** `parseHeaders()` on the text of `_headers`. */
  function ParseHeaders(content: string): (headers: map<string, string>)
    ensures forall k :: k in headers <==> exists line :: line in HeaderLines(content) && HeaderEntry(line).0 == k
    ensures forall k :: k in headers ==>
              exists line :: line in HeaderLines(content) && HeaderEntry(line) == (k, headers[k])
  {
    ParsedLines(HeaderLines(content));
    FromEntries(Entries(HeaderLines(content)))
  }

  /** Trailing white space that follows a non-blank part is cut from that part only. */
  lemma {:induction false} TrimEndAppend(a: string, b: string)
    requires !AllWhitespace(b)
    ensures TrimEnd(a + b) == a + TrimEnd(b)
    decreases |b|
  {
    var s := a + b;
    assert s[|s| - 1] == b[|b| - 1];
    if IsWhitespace(b[|b| - 1]) {
      var shorter := b[..|b| - 1];
      assert !AllWhitespace(shorter) by {
        var k :| 0 <= k < |b| && !IsWhitespace(b[k]);
        assert shorter[k] == b[k];
      }
      assert TrimEnd(s) == TrimEnd(a + shorter) by {
        assert s[..|s| - 1] == a + shorter;
      }
      assert TrimEnd(b) == TrimEnd(shorter);
      TrimEndAppend(a, shorter);
    } else {
      assert TrimEnd(s) == s && TrimEnd(b) == b;
    }
  }

  /** A blank tail disappears entirely under `TrimEnd`. */
  lemma {:induction false} TrimEndBlankTail(a: string, b: string)
    requires AllWhitespace(b)
    ensures TrimEnd(a + b) == TrimEnd(a)
    decreases |b|
  {
    if b != [] {
      assert (a + b)[..|a + b| - 1] == a + b[..|b| - 1];
      TrimEndBlankTail(a, b[..|b| - 1]);
    } else {
      assert a + b == a;
    }
  }

  /** With a first line followed by blank text only, the file has no header lines. */
  lemma BlankAfterFirstLine(first: string, rest: string)
    requires first != [] && !IsWhitespace(first[0]) && '\n' !in first
    requires AllWhitespace(rest)
    ensures HeaderLines(first + "\n" + rest) == []
  {
    var s := first + "\n" + rest;
    assert TrimStart(s) == s;
    assert AllWhitespace("\n" + rest);
    assert s == first + ("\n" + rest);
    TrimEndBlankTail(first, "\n" + rest);
    var t := TrimEnd(first);
    assert '\n' !in t by {
      assert t == first[..|t|];
    }
    assert IndexOf(t, '\n') == -1;
  }

  /** Trimming a file whose first line starts visibly and whose rest is not blank trims the rest's end only. */
  lemma TrimAfterFirstLine(first: string, rest: string)
    requires first != [] && !IsWhitespace(first[0]) && !AllWhitespace(rest)
    ensures Trim(first + "\n" + rest) == first + "\n" + TrimEnd(rest)
  {
    var s := first + "\n" + rest;
    assert TrimStart(s) == s;
    assert s == (first + "\n") + rest;
    TrimEndAppend(first + "\n", rest);
  }

  /** The first line of the file is discarded: for a first line that starts
      with a visible character, the headers come from the remaining lines only
      (once their trailing white space is trimmed), and a file whose first line
      is followed only by white space has no headers. */
  lemma FirstLineDiscarded(first: string, rest: string)
    requires first != [] && !IsWhitespace(first[0]) && '\n' !in first
    ensures HeaderLines(first + "\n" + rest) == if AllWhitespace(rest) then [] else Split(TrimEnd(rest), '\n')
  {
    if AllWhitespace(rest) {
      BlankAfterFirstLine(first, rest);
    } else {
      TrimAfterFirstLine(first, rest);
      SplitAfterPiece(first, '\n', TrimEnd(rest));
    }
  }

  /** When a key repeats, the later line's value wins. */
  lemma LaterDuplicateWins(content: string, i: nat)
    requires i < |HeaderLines(content)|
    requires forall j :: i < j < |HeaderLines(content)| ==>
               HeaderEntry(HeaderLines(content)[j]).0 != HeaderEntry(HeaderLines(content)[i]).0
    ensures var (key, value) := HeaderEntry(HeaderLines(content)[i]);
            key in ParseHeaders(content) && ParseHeaders(content)[key] == value
  {
    FromEntriesLastWins(Entries(HeaderLines(content)), i);
  }

  /** What `readFile` gives: the content, or an error with its `code`. */
  datatype ReadOutcome = Contents(data: string) | ReadFailure(code: string)

  /** The status, headers and body written for one request. */
  datatype Reply = Reply(status: int, headers: map<string, string>, body: string)

  /** The `_headers` file, under the public directory. */
  const HeadersFile: string := "_headers"

  /** The file a URL names, relative to the public directory: `index.html`
      for `/`, otherwise the URL without its leading slash. */
  function RequestFile(url: string): (path: string)
    ensures url == "/" ==> path == "index.html"
    ensures url != "/" ==> "/" + path == url || (path == url && (url == [] || url[0] != '/'))
  {
    if url == "/" then "index.html" else if url != [] && url[0] == '/' then url[1..] else url
  }

  /** The reply to a failed read: 404 for a missing file (`ENOENT`), 500 for any other error. */
  function ErrorReply(code: string): (r: Reply)
    ensures r.status == 404 <==> code == "ENOENT"
    ensures r.status == 500 <==> code != "ENOENT"
    ensures r.headers == map["Content-Type" := "text/plain"]
    ensures r.body == if code == "ENOENT" then "404 Not Found" else "500 Internal Server Error"
  {
    if code == "ENOENT" then Reply(404, map["Content-Type" := "text/plain"], "404 Not Found")
    else Reply(500, map["Content-Type" := "text/plain"], "500 Internal Server Error")
  }

  /** A `tchar` of section 5.6.2 of RFC 9110: the characters Node's
      `writeHead` accepts in a header name. */
  predicate IsTokenChar(c: char)
    ensures IsTokenChar(c) ==> ' ' < c < '\U{7F}' && c !in "\"(),/:;<=>?@[\\]{}"
  {
    ('a' <= c <= 'z') || ('A' <= c <= 'Z') || ('0' <= c <= '9') || c in "!#$%&'*+-.^_`|~"
  }

  /** A header name `writeHead` accepts: a non-empty token; any other name
      throws `ERR_INVALID_HTTP_TOKEN`. */
  predicate IsHttpToken(name: string)
    ensures IsHttpToken(name) ==> name != [] && forall i :: 0 <= i < |name| ==> ' ' < name[i] < '\U{7F}' && name[i] != ':'
  {
    name != [] && forall i :: 0 <= i < |name| ==> IsTokenChar(name[i])
  }

  /** A header value `writeHead` accepts: tab, printable ASCII and the
      characters U+0080 to U+00FF; any other character throws `ERR_INVALID_CHAR`. */
  predicate IsHeaderValue(value: string)
    ensures IsHeaderValue(value) ==>
              forall i :: 0 <= i < |value| ==> value[i] <= '\U{FF}' && value[i] != '\n' && value[i] != '\r' && value[i] != '\0'
  {
    forall i :: 0 <= i < |value| ==>
      value[i] == '\t' || (' ' <= value[i] <= '~') || ('\U{80}' <= value[i] <= '\U{FF}')
  }

  /** The headers `writeHead` accepts: no empty name, no name with a colon,
      and no value that could break the header block. */
  predicate ValidHeaders(headers: map<string, string>)
    ensures ValidHeaders(headers) ==>
              "" !in headers && forall name :: name in headers ==> ':' !in name && '\n' !in headers[name] && '\r' !in headers[name]
  {
    forall name :: name in headers ==> IsHttpToken(name) && IsHeaderValue(headers[name])
  }

  /** The code of the error `writeHead` throws for invalid headers. Node checks
      the headers in insertion order, which a map does not keep, so when both
      kinds occur the name error is taken; either code differs from `ENOENT`. */
  function HeaderErrorCode(headers: map<string, string>): (code: string)
    ensures code != "ENOENT"
    ensures (exists name :: name in headers && !IsHttpToken(name)) ==> code == "ERR_INVALID_HTTP_TOKEN"
  {
    if exists name :: name in headers && !IsHttpToken(name) then "ERR_INVALID_HTTP_TOKEN" else "ERR_INVALID_CHAR"
  }

  /** `{...headers, "Content-Type": ...}`: every parsed header, with the
      extension's Content-Type replacing any Content-Type of the file. */
  function ServedHeaders(headersText: string, ext: string): (headers: map<string, string>)
    ensures "Content-Type" in headers && headers["Content-Type"] == ContentType(ext)
    ensures forall k :: k != "Content-Type" ==>
              (k in headers <==> k in ParseHeaders(headersText))
              && (k in headers ==> headers[k] == ParseHeaders(headersText)[k])
  {
    ParseHeaders(headersText)["Content-Type" := ContentType(ext)]
  }

  /** The request handler: `files(p)` reads `p` under the public directory and
      `ext` is the extension of the requested path. `_headers` is read first,
      then the file, then `writeHead` checks the headers; the first failure is
      caught and decides the error reply. */
  function Serve(url: string, ext: string, files: string -> ReadOutcome): (r: Reply)
    ensures r.status == 200 <==>
              && files(HeadersFile).Contents? && files(RequestFile(url)).Contents?
              && ValidHeaders(ServedHeaders(files(HeadersFile).data, ext))
    ensures r.status == 200 ==>
              r.body == files(RequestFile(url)).data && r.headers == ServedHeaders(files(HeadersFile).data, ext)
    ensures r.status != 200 ==>
              r == ErrorReply(if files(HeadersFile).ReadFailure? then files(HeadersFile).code
                              else if files(RequestFile(url)).ReadFailure? then files(RequestFile(url)).code
                              else HeaderErrorCode(ServedHeaders(files(HeadersFile).data, ext)))
  {
    match files(HeadersFile)
    case ReadFailure(code) => ErrorReply(code)
    case Contents(headersText) =>
      match files(RequestFile(url))
      case ReadFailure(code) => ErrorReply(code)
      case Contents(data) =>
        var headers := ServedHeaders(headersText, ext);
        if ValidHeaders(headers) then Reply(200, headers, data) else ErrorReply(HeaderErrorCode(headers))
  }

  /** Both files readable, a header the `writeHead` check refuses makes the
      handler answer 500 instead of 200. */
  lemma InvalidHeaderIs500(url: string, ext: string, files: string -> ReadOutcome, name: string)
    requires files(HeadersFile).Contents? && files(RequestFile(url)).Contents?
    requires name in ParseHeaders(files(HeadersFile).data) && name != "Content-Type"
    requires !IsHttpToken(name) || !IsHeaderValue(ParseHeaders(files(HeadersFile).data)[name])
    ensures Serve(url, ext, files).status == 500
  {
    InvalidEntryInvalidates(ParseHeaders(files(HeadersFile).data), ContentType(ext), name);
    HeaderErrorIs500(url, ext, files);
  }

  /** One invalid header other than Content-Type makes the served headers invalid. */
  lemma InvalidEntryInvalidates(parsed: map<string, string>, contentType: string, name: string)
    requires name in parsed && name != "Content-Type"
    requires !IsHttpToken(name) || !IsHeaderValue(parsed[name])
    ensures !ValidHeaders(parsed["Content-Type" := contentType])
  {
    var headers := parsed["Content-Type" := contentType];
    assert name in headers && headers[name] == parsed[name];
  }

  /** Served headers `writeHead` refuses, after both reads succeeded, give 500. */
  lemma HeaderErrorIs500(url: string, ext: string, files: string -> ReadOutcome)
    requires files(HeadersFile).Contents? && files(RequestFile(url)).Contents?
    requires !ValidHeaders(ServedHeaders(files(HeadersFile).data, ext))
    ensures Serve(url, ext, files).status == 500
  {
    var code := HeaderErrorCode(ServedHeaders(files(HeadersFile).data, ext));
    assert code != "ENOENT";
  }

  /** A blank line among the header lines yields the empty name, which
      `writeHead` refuses, so every request is answered 500. */
  lemma BlankHeaderLineIs500(url: string, ext: string, files: string -> ReadOutcome)
    requires files(HeadersFile).Contents? && files(RequestFile(url)).Contents?
    requires "" in HeaderLines(files(HeadersFile).data)
    ensures Serve(url, ext, files).status == 500
  {
    BlankLineParsed(HeaderLines(files(HeadersFile).data));
    InvalidHeaderIs500(url, ext, files, "");
  }

  /** A blank line gives the empty name with the empty value. */
  lemma BlankLineEntry()
    ensures HeaderEntry("") == ("", "")
  {
    assert SliceTo("", -1) == "" && SliceFrom("", 0) == "";
    TrimUntrimmed("");
  }

  /** Parsed lines that include a blank one hold the empty name. */
  lemma BlankLineParsed(lines: seq<string>)
    requires "" in lines
    ensures "" in FromEntries(Entries(lines))
  {
    BlankLineEntry();
    ParsedLines(lines);
    assert "" in lines && HeaderEntry("").0 == "";
  }

  /** A piece, then an empty piece, then the rest: the split starts with the piece and the empty string. */
  lemma SplitEmptySecond(a: string, c: string)
    requires '\n' !in a
    ensures Split(a + ['\n'] + (['\n'] + c), '\n') == [a, ""] + Split(c, '\n')
  {
    SplitLeadingSeparator('\n', c);
    SplitAfterPiece(a, '\n', ['\n'] + c);
  }

  /** A file whose second header line is empty has the empty line among its header lines. */
  lemma EmptySecondHeaderLine(first: string, a: string, c: string)
    requires first != [] && !IsWhitespace(first[0]) && '\n' !in first
    requires '\n' !in a && c != [] && !IsWhitespace(c[|c| - 1])
    ensures var lines := HeaderLines(first + "\n" + a + "\n" + "\n" + c);
            |lines| >= 2 && lines[0] == a && lines[1] == ""
  {
    var rest := a + ['\n'] + (['\n'] + c);
    assert first + "\n" + a + "\n" + "\n" + c == first + "\n" + rest;
    assert !AllWhitespace(rest) && TrimEnd(rest) == rest by {
      assert rest[|rest| - 1] == c[|c| - 1];
    }
    FirstLineDiscarded(first, rest);
    SplitEmptySecond(a, c);
  }

  /** A `_headers` file with an empty line between two header lines (a path
      line, `X-A: b`, an empty line, `X-C: d`): every request, even for a file
      that exists, is answered 500. */
  lemma EmptyLineBetweenHeadersIs500(url: string, ext: string, files: string -> ReadOutcome,
                                     first: string, a: string, c: string)
    requires first != [] && !IsWhitespace(first[0]) && '\n' !in first
    requires '\n' !in a && c != [] && !IsWhitespace(c[|c| - 1])
    requires files(HeadersFile) == Contents(first + "\n" + a + "\n" + "\n" + c) && files(RequestFile(url)).Contents?
    ensures Serve(url, ext, files).status == 500
  {
    EmptySecondHeaderLine(first, a, c);
    assert HeaderLines(files(HeadersFile).data)[1] == "";
    BlankHeaderLineIs500(url, ext, files);
  }

  /** `/` and `/index.html` are served alike. */
  lemma RootIsIndex(ext: string, files: string -> ReadOutcome)
    ensures Serve("/", ext, files) == Serve("/index.html", ext, files)
  {
    assert "/index.html"[1..] == "index.html";
  }

  /** Without a `_headers` file every request is answered 404, whatever file it names. */
  lemma MissingHeadersFileIs404(url: string, ext: string, files: string -> ReadOutcome)
    requires files(HeadersFile) == ReadFailure("ENOENT")
    ensures Serve(url, ext, files).status == 404
  {
  }
}
