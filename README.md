# map_ssh_attempts: a verified model of the log parser, the database caches and the bar chart counts

map_ssh_attempts reads the sshd lines of `/var/log/auth.log`. It turns the
"User X from A not allowed" and "Invalid user X from A" lines into attempts.
Each attempt is a timestamp, a user name and an IP address. It then places
the attempts on a map using the MaxMind GeoIP databases, checks them against
the Tor exit node list, or counts them in a bar chart. This project models
that core in Dafny and proves what it promises:

- `text.dfy` holds the pieces of Python's string handling the core relies on.
  These are greedy character-class runs (`\s+`, `\S+`, `\d+`), `int(s)`,
  `str(n)`, `s.split(sep)` and `s.split()`.
- `address.dfy` models `ipaddress.ip_address` on text, with the 3.4-era
  rules. It tries IPv4 first, then IPv6, with `::` and an embedded dotted
  tail. It also proves that the text of an address reads back as that
  address.
- `timestamp.dfy` models the default branch of `parse_datetime`:
  `(\S+)\s+(\d+)\s+(.*)`, `int` on the day, `strptime('%b %d %H:%M:%S')`,
  and the rebuild of the date with the current year. `strptime` checks the
  day against the year 1900, which is not a leap year, so 29 February is
  always refused. It proves that every other valid date and time, written
  the way syslog writes it, reads back as itself.
- `logparser.dfy` models `parse_log`. It has a matcher for the two sshd
  patterns that follows Python's leftmost, greedy, backtracking choice of
  groups. It also has the per-line step (first pattern wins), the generator
  as a run that stops at the first exception, and the loop as a method
  proved equal to that run.
- `files.dfy` is a flat file-system and network model. It covers
  `os.path.expanduser`, `os.makedirs`, `open(..., 'wb')`, reads, and the
  refresh sequence that both caches use (check the directory, create it,
  truncate each file, download, write). It also has a `FileSystem` class
  whose methods update the nodes in place.
- `geoip.dfy` models `GeoIPMultiversion`: the catalogue of versions, names
  and URLs, `update_cache`, `check_cache`, `load_dbs`, `check_loaded`,
  `coord_by_addr` and the `__getattr__` forwarding of `*_by_addr` queries.
  It is a class whose methods are proved equal to pure functions over the
  old state.
- `tor.dfy` models `TorExitNodeDatabase` in the same way. It includes the
  set comprehension over `f.read().split()` that fails on the first token
  that is not an address.
- `attacks.dfy` models `ip_to_lon_lat` of the map_ssh_attacks package.
- `plot.dfy` models the counting part of `bar_plot`: the per-username and
  per-country counts, the skip on `AttributeError`, the `ValueError` for an
  unknown property, the stable sort by count and the unpacking that fails
  on an empty chart.

The three copies of `parse_datetime` and `parse_log` (in
`map_ssh_attempts/getdata.py`, `map_ssh_attempts/__init__.py` and
`map_ssh_attacks/__init__.py`) are the same text. One model serves all
three, and the table below cites each copy.

Python exceptions are the `Exception` datatype. An operation that may raise
returns a `Result` or an `Outcome`. A generator that may raise part-way is a
`LogOutcome`: the attempts yielded so far, plus the exception, if any.

## Model

| member | source | states |
|---|---|---|
| Address.ParseIPv4 | map_ssh_attempts/getdata.py:109 | A dotted address that is accepted has four octets, each below 256. |
| Address.ParseIPv6 | map_ssh_attempts/getdata.py:109 | A colon address that is accepted has eight groups, each below 0x10000. |
| Address.ParseAddr | map_ssh_attempts/getdata.py:109 | `ip_address` tries IPv4 first, then IPv6. It fails (ValueError) exactly when neither reads the text. The result is a valid address. |
| Address.LiteralShape | map_ssh_attempts/tor.py:65 | The text of an address is a non-empty run of address characters, so `split()` keeps it whole. |
| Address.Literal | map_ssh_attempts/geoip.py:98 | `str(addr)`: dotted decimal for IPv4, eight colon-separated hex groups for IPv6. Its contract is carried by LiteralShape and LiteralRoundTrip. |
| Address.DottedRoundTrip | map_ssh_attempts/geoip.py:98 | The dotted decimal text of any four octets reads back as those octets. |
| Address.ExplodedRoundTrip | map_ssh_attempts/geoip.py:98 | The eight-group hex text of an IPv6 address is refused by the IPv4 reader and read back exactly by the IPv6 reader. |
| Address.LiteralRoundTrip | map_ssh_attempts/geoip.py:98 | `ip_address(str(a)) == a` for every valid address, so a lookup by text finds the address itself. |
| Timestamp.SplitFragment | map_ssh_attempts/getdata.py:82 | The three groups of `(\S+)\s+(\d+)\s+(.*)` are a non-empty non-blank word, a non-empty digit run, and a rest without a newline. |
| Timestamp.FragmentFields | map_ssh_attempts/getdata.py:82 | Text laid out as word, blanks, digits, blanks, clock splits back into exactly those three groups. |
| Timestamp.MonthNumber | map_ssh_attempts/getdata.py:85 | `%b` gives month m exactly when the lower-cased word is the m-th English abbreviation. Any other word is refused. |
| Timestamp.MonthAbbrevRead | map_ssh_attempts/getdata.py:85 | Every month's capitalised abbreviation reads back as that month. |
| Timestamp.ClockField | map_ssh_attempts/getdata.py:85 | A clock field read by `%H`, `%M` or `%S` is within its bound. |
| Timestamp.ParseClock | map_ssh_attempts/getdata.py:85 | An accepted clock has hour ≤ 23, minute ≤ 59 and second ≤ 59. |
| Timestamp.ClockRead | map_ssh_attempts/getdata.py:85 | Every valid time written as `HH:MM:SS` reads back as itself. |
| Timestamp.ParseTimestamp | map_ssh_attempts/getdata.py:81-88 | When the splitting pattern matches, the fragment is accepted exactly when `%b` reads the first group, the clock reads, the day is at least 1 and within its month in 1900, and the current year is between 1 and 9999. A success carries that year, the month `%b` read, the day `int()` read and the clock read, so it is never 29 February. A failure is AttributeError (exactly when the splitting pattern does not match) or ValueError. |
| Timestamp.SyslogDayRead | map_ssh_attempts/getdata.py:84 | `int()` of the syslog day field gives the day. |
| Text.Decimal | map_ssh_attempts/getdata.py:84 | `int()` on a run of ASCII digits, leading zeros allowed. DecimalZeros and SyslogDayRead state what it gives. |
| Text.DecimalZeros | map_ssh_attempts/getdata.py:84 | `int()` of a digit run is 0 exactly when every digit is '0', and k digits give a value below 10 to the power k. |
| Timestamp.StrptimeDays | map_ssh_attempts/getdata.py:85-88 | A day `strptime` accepts in 1900 exists in every year, and February has 28 days in 1900. |
| Timestamp.LeapDayRefused | map_ssh_attempts/getdata.py:85 | 29 February is refused with ValueError whatever the current year, because `strptime` checks it before the year is replaced. |
| Timestamp.FieldsRead | map_ssh_attempts/getdata.py:83-88 | Fields that name a valid date and time other than 29 February rebuild exactly that date and time in the given year. |
| Timestamp.SyslogStampRoundTrip | map_ssh_attempts/__init__.py:79-86 | Every valid date and time except 29 February, as syslog writes it (space-padded day), parses back as itself in its year. |
| Timestamp.ZeroPaddedRoundTrip | map_ssh_attacks/__init__.py:72-79 | The zero-padded form of a day reads the same, since `int()` normalises the day before `strptime` (29 February excepted, as above). |
| LogParser.After | map_ssh_attempts/getdata.py:102 | A literal is consumed exactly when the text starts with it, and the rest is what follows. |
| LogParser.LitRun | map_ssh_attempts/getdata.py:102 | A literal followed by a greedy class run gives a non-empty run of that class. |
| LogParser.MatchSuffix | map_ssh_attempts/getdata.py:102-103 | The part of each pattern after the datetime yields a non-empty, non-blank user name and address. |
| LogParser.SuffixOf | map_ssh_attempts/getdata.py:102-103 | Completeness: every correctly laid out ` sshd[pid]: … from …` tail is matched with those groups. The second pattern has no trailer, so the greedy `\S+` takes the whole word. |
| LogParser.SuffixSound | map_ssh_attempts/getdata.py:102-103 | Soundness: a matched tail is exactly a laid-out tail with a digit pid and the captured groups. |
| LogParser.AnchorIff | map_ssh_attempts/getdata.py:102-103 | The positions where the tail can start are exactly those where the suffix matcher succeeds. |
| LogParser.ScanMiddle | map_ssh_attempts/getdata.py:105 | The middle `.*` is tried longest first. It returns the longest path, or reports that there is none. |
| LogParser.ScanDatetime | map_ssh_attempts/getdata.py:105 | The datetime `.*` is tried longest first. The found split is a path, and no longer split is. |
| LogParser.FirstPath | map_ssh_attempts/getdata.py:105 | `re.match` picks the lexicographically largest (datetime length, middle length) path. It returns nothing exactly when no path exists. |
| LogParser.Match | map_ssh_attempts/getdata.py:102-105 | A match captures a datetime with no newline, and a non-empty, non-blank user name and address. |
| LogParser.MatchIff | map_ssh_attempts/getdata.py:105 | A line matches exactly when some way to lay it out against the pattern exists. |
| LogParser.MatchSound | map_ssh_attempts/getdata.py:102-103 | The captured groups fill a complete layout of the pattern over the whole line. |
| LogParser.ShapeMatchAt | map_ssh_attempts/getdata.py:102-103 | Every layout of the pattern is a path the matcher considers. |
| LogParser.FirstPathOf | map_ssh_attempts/getdata.py:105 | When a layout beats all others in greedy order, the matcher returns it. |
| LogParser.MatchFromPath | map_ssh_attempts/getdata.py:105-109 | The groups of the chosen path are the groups `groupdict()` returns. |
| LogParser.ScanExact | map_ssh_attempts/getdata.py:105 | The backtracking scan finds the greatest path in greedy order. |
| LogParser.NoDaemonNoMatch | map_ssh_attempts/getdata.py:102-103 | A line with no ` sshd[` anywhere matches neither pattern. |
| LogParser.FirstOf | map_ssh_attempts/getdata.py:104-106 | The pattern loop finds nothing exactly when no pattern matches. Otherwise it returns the groups of the first pattern that matches. |
| LogParser.FirstSome | map_ssh_attempts/getdata.py:104-110 | `break` after the first hit: the first present entry is taken, and every earlier one is absent. |
| LogParser.FirstSomePair | map_ssh_attempts/getdata.py:104-110 | With two patterns, the second counts only when the first fails. |
| LogParser.ParseLine | map_ssh_attempts/getdata.py:100-110 | A line yields nothing exactly when neither pattern matches. A yielded attempt carries a valid date in the current year and a valid address. An exception is AttributeError or ValueError. |
| LogParser.StepOf | map_ssh_attempts/getdata.py:107-109 | A match yields an attempt exactly when both the datetime and the address parse, with the captured user name. A datetime error is raised first. An address error is raised as ValueError. |
| LogParser.FirstSignatureWins | map_ssh_attempts/getdata.py:102-110 | A "not allowed" match decides the line. An "Invalid user" match is used only when the first pattern fails. |
| LogParser.Run | map_ssh_attempts/getdata.py:99-110 | The generator yields at most one attempt per line. Every attempt comes from a line that yields one, and an exception comes from a line that raises it. |
| LogParser.Steps | map_ssh_attempts/getdata.py:100 | There is one per-line step for each line of the log. |
| LogParser.MapAppend | map_ssh_attempts/getdata.py:100 | The lines are handled one at a time, so the steps of a concatenated log are the concatenated steps. |
| LogParser.ParseLogSpec | map_ssh_attempts/getdata.py:99-110 | `parse_log` yields no more attempts than the log has lines. |
| LogParser.RunFrom | map_ssh_attempts/getdata.py:104-110 | The run from line n is line n's step followed by the run of the remaining lines. |
| LogParser.LineStep | map_ssh_attempts/getdata.py:102-110 | The inner loop over the patterns computes the per-line step. |
| LogParser.ParseLog | map_ssh_attempts/getdata.py:99-110 | The loop yields exactly the attempts, and raises exactly the exception, of the generator's specification. |
| LogParser.ThenNext | map_ssh_attempts/getdata.py:105-110 | A skipped line adds nothing, an emitted attempt is appended in order, and an exception ends the generator. |
| LogParser.YieldedWellFormed | map_ssh_attempts/__init__.py:97-108 | Every yielded attempt has a valid date in the current year and a valid address. Any exception is AttributeError or ValueError. |
| LogParser.RunAppend | map_ssh_attempts/__init__.py:98-108 | Running two parts of a log is running the first, then, if it did not raise, the second. |
| LogParser.StepsAppend | map_ssh_attempts/__init__.py:98 | The steps of a concatenated log are the steps of its parts. |
| LogParser.ParseLogAppend | map_ssh_attempts/__init__.py:97-108 | Parsing a concatenated log gives the attempts of the first part, then those of the second. The second part is never read once the first raises. |
| LogParser.CountActive | map_ssh_attacks/__init__.py:90-101 | At most one attempt or exception per line. |
| LogParser.RunCount | map_ssh_attacks/__init__.py:90-101 | Without an exception, the number of attempts is the number of lines that yield. With one, the exception is that of the first raising line, and the number of attempts is the number of yielding lines before it. |
| LogParser.AttemptsPerMatchingLine | map_ssh_attacks/__init__.py:84-101 | A log that parses without exception yields one attempt per matching line. When one is raised, it comes from the first raising line, and one attempt is yielded per matching line before it. |
| LogParser.StepsPrefix | map_ssh_attacks/__init__.py:91-92 | The first n steps depend only on the first n lines, and step n is that line's own step. |
| Files.PathJoin | map_ssh_attempts/geoip.py:55 | `os.path.join(dir, name)` ends with the name. |
| Files.PathJoinDistinct | map_ssh_attempts/geoip.py:55 | Different names in one directory are different paths, and neither is the directory itself. |
| Files.TrimSlashes | map_ssh_attempts/geoip.py:42 | The home directory loses exactly its trailing slashes. |
| Files.ExpandUser | map_ssh_attempts/geoip.py:42 | A path not starting with `~` is unchanged. `~` and `~/…` are replaced by the home directory. |
| Files.MadeDirs | map_ssh_attempts/geoip.py:51 | `os.makedirs` adds the directory when the path is free. An existing path raises FileExistsError and leaves everything unchanged. |
| Files.Truncated | map_ssh_attempts/geoip.py:55 | `open(path, 'wb')` succeeds exactly when the parent is a directory and the path is not one. It then leaves an empty file there. On failure nothing changes. |
| Files.Contents | map_ssh_attempts/tor.py:64-65 | A read succeeds exactly when the path is a file, and gives its bytes. A failure is FileNotFoundError or IsADirectoryError. |
| Files.WriteAll | map_ssh_attempts/geoip.py:52-59 | The download loop changes no path other than its own files. It completes only when every download succeeded. Its exception is NotADirectoryError, FileNotFoundError, IsADirectoryError or a download's own error. |
| Files.Refresh | map_ssh_attempts/geoip.py:45-59 | An existing cache path that is not a directory raises NotADirectoryError, and nothing is written. Any exception is one of those of `os.makedirs`, `open` or a download. |
| Files.WriteAllKeepsDir | map_ssh_attempts/geoip.py:52-59 | The loop leaves the cache directory a directory. |
| Files.WriteAllSucceeds | map_ssh_attempts/geoip.py:52-59 | When every download succeeds, each file holds exactly its download. |
| Files.WriteAllFails | map_ssh_attempts/geoip.py:55-58 | A failed download raises its error and leaves its file truncated to empty, because the file is opened before the download. |
| Files.WriteAllPassed | map_ssh_attempts/geoip.py:52-59 | A completed loop left every file holding its download. |
| Files.RefreshPassed | map_ssh_attempts/geoip.py:45-59 | After a successful update the cache directory is a directory and every file holds its download. |
| Files.Fetch | map_ssh_attempts/geoip.py:57 | `urlopen(url).read()` gives the server's bytes, or URLError when the URL cannot be reached. |
| Files.FileSystem.constructor | map_ssh_attempts/geoip.py:42 | The file system starts with the given nodes. |
| Files.FileSystem.MakeDirs | map_ssh_attempts/geoip.py:51 | The nodes change as `os.makedirs` prescribes. |
| Files.FileSystem.OpenForWriting | map_ssh_attempts/geoip.py:55 | The nodes change as `open(..., 'wb')` prescribes. |
| Files.FileSystem.Write | map_ssh_attempts/geoip.py:59 | `f.write` appends the bytes to that file, and nothing else changes. |
| Geo.GeoCatalogValid | map_ssh_attempts/geoip.py:31-35 | Both versions have a name and a source, and the two file names differ. |
| Geo.Decompress | map_ssh_attempts/geoip.py:58 | `gzip.decompress` gives the payload of a stream the gunzip table accepts. Every refusal is OSError (see Left out). |
| Geo.Download | map_ssh_attempts/geoip.py:57-58 | A database download succeeds exactly when its URL answers with a gzip stream, and yields the decompressed payload. A failure is URLError or OSError. |
| Geo.Items | map_ssh_attempts/geoip.py:52-54 | The loop writes one file per version, in the order 4 then 6, each under its own name and from its own source. |
| Geo.RefreshCaches | map_ssh_attempts/geoip.py:45-69 | After a successful `update_cache`, `check_cache` holds and each file holds its decompressed download. |
| Geo.Cached | map_ssh_attempts/geoip.py:62-69 | `check_cache`: both database files are present in the cache directory. |
| Geo.CachedEveryVersion | map_ssh_attempts/geoip.py:62-69 | The loop returns False at the first version whose file is missing, so `check_cache` holds exactly when every version's file exists. |
| Geo.IsLoaded | map_ssh_attempts/geoip.py:82-88 | `check_loaded`: both versions have a database. |
| Geo.LoadedEveryVersion | map_ssh_attempts/geoip.py:82-88 | `check_loaded` holds exactly when every version has a database. |
| Geo.OpenDb | map_ssh_attempts/geoip.py:79 | Opening a database succeeds exactly when its file exists and the reader accepts its bytes. A failure is FileNotFoundError, IsADirectoryError or the reader's error. |
| Geo.OpenDbs | map_ssh_attempts/geoip.py:75-80 | The loaded map holds only versions whose files were read. On success it holds every version tried. On failure it lacks the version that failed, and the exception is that of opening it. |
| Geo.OpenDbsStops | map_ssh_attempts/geoip.py:76-80 | After the first failure no later version is tried. |
| Geo.OpenDbsAll | map_ssh_attempts/geoip.py:75-80 | A completed loop holds exactly versions 4 and 6, each read from its file. |
| Geo.Load | map_ssh_attempts/geoip.py:71-80 | When `check_cache` is false the refresh runs first: its exception is raised with the files it left and the databases unchanged, and a bad cache path raises NotADirectoryError. Otherwise the databases and the exception are those of the loop over the versions, on the files after the refresh. On success the loaded versions are exactly {4, 6}, the cache is complete, and each database comes from its file. Any exception is one of `Geo.LoadErrors`, never AttributeError. |
| Geo.EnsureLoaded | map_ssh_attempts/geoip.py:96-97 | Loaded databases are reused untouched. Otherwise they are loaded, and success leaves them loaded. |
| Geo.CoordOf | map_ssh_attempts/geoip.py:98-102 | The coordinate is the record's longitude and latitude, found exactly when the address is in the database. Otherwise GeoIPError is raised. |
| Geo.RecordByText | map_ssh_attempts/geoip.py:98 | `record_by_addr(text)`: the record of the address the text reads as, or None. CoordOf's contract states its use. |
| Geo.Lookup | map_ssh_attempts/geoip.py:90-102 | With the databases loaded, nothing changes. Otherwise they are loaded first: the files and databases are those `load_dbs` leaves, a loading exception is raised, and a successful load is followed by the lookup in the new database of the address's version. A hit gives the record's longitude and latitude; a miss raises GeoIPError. |
| Geo.LoadsOnce | map_ssh_attempts/geoip.py:96-97 | After one successful lookup, a second lookup changes neither the files nor the databases. |
| Geo.DispatchByVersion | map_ssh_attempts/geoip.py:98 | The answer depends only on the database of the address's version. |
| Geo.QueriesForward | map_ssh_attempts/geoip.py:105 | `record_by_addr` and `country_name_by_addr` both end in `_by_addr`, so both are forwarded. |
| Geo.Query | map_ssh_attempts/geoip.py:109 | A record query answers the record or none. A country-name query raises AttributeError when no record exists. Any error is AttributeError. |
| Geo.Forward | map_ssh_attempts/geoip.py:104-112 | The `__getattr__` fallback, reached only by names the class does not define (so never by `coord_by_addr`). A name not ending in `_by_addr` raises AttributeError and loads nothing. Any other name loads the databases when they are not loaded (the files, databases and exception of `load_dbs`), then queries the database of the address's version. |
| Geo.GeoIPMultiversion.constructor | map_ssh_attempts/geoip.py:37-43 | The cache directory is the expanded path, the catalogue is fixed, and nothing is loaded. |
| Geo.GeoIPMultiversion.CheckCache | map_ssh_attempts/geoip.py:62-69 | `check_cache()` on the object's files and directory is `Geo.Cached`. |
| Geo.GeoIPMultiversion.CheckLoaded | map_ssh_attempts/geoip.py:82-88 | `check_loaded()` on the object's databases is `Geo.IsLoaded`. |
| Geo.GeoIPMultiversion.UpdateCache | map_ssh_attempts/geoip.py:45-60 | The files and the exception are those of the refresh sequence over the two downloads. |
| Geo.GeoIPMultiversion.LoadDbs | map_ssh_attempts/geoip.py:71-80 | The files, the databases and the exception are those of `Geo.Load` on the old state. |
| Geo.GeoIPMultiversion.CoordByAddr | map_ssh_attempts/geoip.py:90-102 | The new state and the answer are those of `Geo.Lookup` on the old state. |
| Geo.GeoIPMultiversion.ByAddr | map_ssh_attempts/geoip.py:104-112 | The new state and the answer are those of `Geo.Forward` on the old state. |
| Tor.Decode | map_ssh_attempts/tor.py:64-65 | Reading the file as text succeeds exactly when every byte is ASCII, and keeps each byte as its character. Otherwise UnicodeDecodeError is raised. |
| Tor.DecodeEncode | map_ssh_attempts/tor.py:64-65 | ASCII text written as bytes reads back as itself. |
| Tor.Collect | map_ssh_attempts/tor.py:65 | The set comprehension succeeds exactly when every element does, and then holds exactly those elements. Otherwise ValueError is raised. |
| Tor.ExitNodes | map_ssh_attempts/tor.py:65 | The exit-node set is exactly the addresses of the tokens. A token that is not an address raises ValueError. |
| Tor.ReadList | map_ssh_attempts/tor.py:64-65 | A list is read only from an existing file. |
| Text.Words | map_ssh_attempts/tor.py:65 | `split()` gives non-empty words without whitespace. WordsUnlines and ListText prove that it gives back the words of a line-per-word text in order. |
| Tor.TorItems | map_ssh_attempts/tor.py:42-46 | The refresh writes one file, the raw download, without decompression. |
| Tor.Load | map_ssh_attempts/tor.py:58-66 | When the list file is missing the refresh runs first: its exception is raised with the files it left and the set unchanged. Otherwise the list is read from the files after the refresh: a reading error is raised with the set unchanged, and success stores exactly the addresses in the file. A bad cache path raises NotADirectoryError. |
| Tor.Query | map_ssh_attempts/tor.py:68-76 | A loaded set is reused, and the answer is membership in it. With no set loaded, the list is loaded first: the files and set are those `load_dbs` leaves, a loading exception is raised, and otherwise the answer is membership in the set just loaded. |
| Tor.EmptyList | map_ssh_attempts/tor.py:54-76 | An empty list file loads as the empty set, which is still "loaded", so no address is an exit node. |
| Tor.ListText | map_ssh_attempts/tor.py:65 | A list of addresses, one per line, is ASCII, and `split()` gives back their texts in order. |
| Tor.LiteralWords | map_ssh_attempts/tor.py:65 | The address texts are ASCII, non-empty and free of blanks. |
| Tor.CollectAll | map_ssh_attempts/tor.py:65 | A comprehension over values that all succeed gives the set of those values. |
| Tor.LiteralsParse | map_ssh_attempts/tor.py:65 | Each address text parses as its address. |
| Tor.ExitNodesOfLiterals | map_ssh_attempts/tor.py:65 | The texts of a list of addresses give exactly the set of those addresses. |
| Tor.ListRoundTrip | map_ssh_attempts/tor.py:64-65 | A cache file listing addresses loads as exactly the set of those addresses. |
| Tor.TorExitNodeDatabase.constructor | map_ssh_attempts/tor.py:27-33 | The cache directory is the expanded path, and no set is loaded. |
| Tor.TorExitNodeDatabase.CheckCache | map_ssh_attempts/tor.py:49-52 | `check_cache()`: the list file exists in the cache directory. |
| Tor.TorExitNodeDatabase.CheckLoaded | map_ssh_attempts/tor.py:54-56 | `check_loaded()`: a set is loaded (`db is not None`). |
| Tor.TorExitNodeDatabase.UpdateCache | map_ssh_attempts/tor.py:35-47 | The files and the exception are those of the refresh sequence over the one download. |
| Tor.TorExitNodeDatabase.LoadDbs | map_ssh_attempts/tor.py:58-66 | The files, the set and the exception are those of `Tor.Load` on the old state. |
| Tor.TorExitNodeDatabase.IsTorExitNode | map_ssh_attempts/tor.py:68-76 | The new state and the answer are those of `Tor.Query` on the old state. |
| Attacks.IpToLonLat | map_ssh_attacks/__init__.py:104-111 | The coordinate is the longitude and latitude of the address's record in the database of its version. A missing record raises TypeError (subscripting None). |
| Attacks.IpToLonLatAgrees | map_ssh_attacks/__init__.py:110-111 | The result agrees with `coord_by_addr` on every address, except that a miss is TypeError here and GeoIPError there. |
| Attacks.IpToLonLatDispatch | map_ssh_attacks/__init__.py:18-19 | Only the database of the address's version matters. |
| Plot.CountOfAt | map_ssh_attempts/plot.py:33 | In a dictionary without duplicate keys, a key's stored count is its count. |
| Plot.Bump | map_ssh_attempts/plot.py:33 | `data[k] = data.get(k, 0) + 1` adds k to the keys and raises its count by one. Every other count is unchanged. |
| Plot.BumpTotal | map_ssh_attempts/plot.py:33 | Each bump raises the sum of the counts by one. |
| Plot.BumpDistinct | map_ssh_attempts/plot.py:33 | Keys stay distinct and counts stay positive. |
| Plot.Tally | map_ssh_attempts/plot.py:28-41 | Each key's count is the number of its occurrences, and the keys are exactly those seen. |
| Plot.TallyShape | map_ssh_attempts/plot.py:31-41 | The keys are distinct, every count is positive, and the counts sum to the number of keys seen. |
| Plot.Insert | map_ssh_attempts/plot.py:45 | Inserting keeps every item and adds the new one. |
| Plot.InsertAscending | map_ssh_attempts/plot.py:45 | Inserting into an ascending list keeps it ascending by count. |
| Plot.InsertStable | map_ssh_attempts/plot.py:45 | Insertion places the new item first among the items with its count, and keeps their order. Since the sort inserts each head into the sorted tail, this keeps equal counts in their original order. |
| Plot.SortByCount | map_ssh_attempts/plot.py:45 | `sorted` returns a permutation of the items. |
| Plot.SortAscending | map_ssh_attempts/plot.py:45 | The sorted items ascend by count. |
| Plot.SortStable | map_ssh_attempts/plot.py:45 | Items with equal counts keep the order they had in the items, as Python's `sorted` is stable. |
| Plot.InsertTotal | map_ssh_attempts/plot.py:45 | Inserting adds the item's count to the sum. |
| Plot.InsertDistinct | map_ssh_attempts/plot.py:45 | Inserting a new key keeps the keys distinct. |
| Plot.SortTotal | map_ssh_attempts/plot.py:45 | Sorting keeps the sum of the counts. |
| Plot.SortDistinct | map_ssh_attempts/plot.py:45 | Sorting keeps the keys distinct. |
| Plot.SortShape | map_ssh_attempts/plot.py:45 | Sorting keeps the total and the distinctness of the keys. |
| Plot.Chart | map_ssh_attempts/plot.py:45 | `zip(*sorted(...))` unpacks into labels and values of equal length. Zipped back, they are a permutation of the items, ascending by value, and items with equal values keep their order. Empty data, and only empty data, raises ValueError. |
| Plot.ZipColumns | map_ssh_attempts/plot.py:45 | Zipping the two columns of the items gives back the items, so `zip(*…)` loses nothing. |
| Plot.ChartCounts | map_ssh_attempts/plot.py:33-45 | Each bar's value is the number of attempts with that label. |
| Plot.PermutedLabel | map_ssh_attempts/plot.py:45 | Sorting loses no label. |
| Plot.ChartMembers | map_ssh_attempts/plot.py:33-45 | The labels of the chart are exactly the keys seen. |
| Plot.ChartOfTally | map_ssh_attempts/plot.py:28-45 | The chart fails exactly on no keys. Otherwise each label appears once, with its number of occurrences as its value, in ascending order, and the chart has every key seen. |
| Plot.UserKeys | map_ssh_attempts/plot.py:31-33 | The username chart counts each attempt's user name once, in order. |
| Plot.Countries | map_ssh_attempts/plot.py:34-41 | With loaded databases, at most one country per attempt. Attempts without a country record are skipped. |
| Plot.Prefixed | map_ssh_attempts/plot.py:31-41 | Keys found before an exception are kept only if no exception follows. |
| Plot.CountryKeys | map_ssh_attempts/plot.py:31-41 | The country loop swallows AttributeError, so an exception that escapes it is never AttributeError. It gives at most one country per attempt. |
| Plot.CountryKeysStep | map_ssh_attempts/plot.py:34-41 | Proof step, one unfolding of the loop: a query that raises AttributeError skips its attempt, any other error ends the loop, and a country is counted. |
| Plot.PrefixedAppend | map_ssh_attempts/plot.py:31-41 | Counting keys one at a time equals counting them together. |
| Plot.CountryKeysLoaded | map_ssh_attempts/plot.py:34-41 | With loaded databases, the loop changes no state and gives exactly the countries of the attempts that have one. |
| Plot.CountryKeysFresh | map_ssh_attempts/plot.py:29-41 | With a fresh GeoIP object, the first lookup loads the databases. A failed load ends the loop with its exception. A successful one leaves them loaded, and the loop gives exactly the countries of the attempts found in them. |
| Plot.FreshLookup | map_ssh_attempts/geoip.py:96-112 | On a fresh GeoIP object, `country_name_by_addr` first loads the databases. A failed load raises its own exception, never AttributeError. Otherwise it queries the loaded database of the address's version. |
| Plot.Plot | map_ssh_attempts/plot.py:28-45 | Only the country chart touches the file system. An unknown property raises ValueError. No attempts at all raises ValueError at the unpacking. |
| Plot.UsernamePlot | map_ssh_attempts/plot.py:31-45 | The username chart leaves the files alone. It has one bar per user name, whose value is that name's number of attempts, ascending. |
| Plot.UsernameChart | map_ssh_attempts/plot.py:31-45 | The chart of the user names of a non-empty list has each name once, with its number of attempts as its value. |
| Plot.CountryPlot | map_ssh_attempts/plot.py:29-45 | From a fresh GeoIP object: when loading the databases fails, the chart fails with that exception, which is never AttributeError. Otherwise the files are those the load left, and the chart is that of the countries of the attempts found in the loaded databases: ValueError when there are none, else one bar per country with its number of attempts, ascending. |
| Plot.TallyUserStep | map_ssh_attempts/plot.py:33 | Proof step, one unfolding of the tally: one more attempt bumps exactly its user name. |
| Plot.CountUsernames | map_ssh_attempts/plot.py:31-33 | The loop's dictionary is the tally of the user names. |
| Plot.CountryProgressDone | map_ssh_attempts/plot.py:31-41 | Proof step for the loop: once the loop has gone over every attempt, its keys are the countries of the specification. |
| Plot.CountCountry | map_ssh_attempts/plot.py:34-41 | One pass of the country branch either counts its key or ends with the loop's exception. |
| Plot.CountCountries | map_ssh_attempts/plot.py:31-41 | The loop's dictionary is the tally of the countries found, and the state and exception are those of the country loop's specification. |
| Plot.BarPlot | map_ssh_attempts/plot.py:28-45 | `bar_plot` computes the labels and values of the pure specification, with the same file-system effects and exceptions. |

## Left out

- Drawing: the matplotlib calls (`map_ssh_attempts/plot.py:46-52`) and the other plotting and map code are not modelled. `bar_plot` ends at the labels and values it would draw.
- Opening the log, SSH to a remote host and `print_download_progress` are I/O and are not modelled. The log is given as a sequence of lines.
- LogParser.ParseLog: lines are taken as already decoded text. A line that is not UTF-8 raises UnicodeDecodeError in the source, and this is not modelled.
- Timestamp.ParseTimestamp: only the default `fmt=None` branch is modelled. An explicit `fmt` passes the text to `strptime` unchanged, and no caller passes one.
- Timestamp.ParseTimestamp: the current year (`datetime.now().year`) is a parameter.
- LogParser.Steps: one year serves the whole log. The source calls `datetime.now()` for each line (`map_ssh_attempts/getdata.py:87`), so a log parsed across New Year's midnight can give its lines two different years.
- Geo.Decompress: every decompression failure is named OSError. Python's gzip raises EOFError for a truncated stream and `zlib.error` for corrupt deflate data, and OSError only for a bad header or a CRC or length mismatch. No caller tells them apart.
- Text.IsDigit: `\d` and `int()` are modelled on ASCII digits only. Python's `str` patterns also accept other Unicode decimal digits.
- Address.ParseAddr: IPv6 zone ids (`%eth0`) are not accepted, following the Python 3.4 `ipaddress` the code was written against.
- Address.Literal: an IPv6 address is written in the exploded eight-group form, not the compressed form `str()` produces. Both read back as the same address, which is the only use the core makes of the text.
- The pygeoip reader and gzip are tables (`Backend.reader`, `Backend.gunzip`). Their file formats are not modelled.
- Only `record_by_addr` and `country_name_by_addr` are modelled among pygeoip's `*_by_addr` queries. Any other query name answers AttributeError in the model, while pygeoip may answer it.
- Longitudes and latitudes are opaque reals, because floating point arithmetic is never performed on them.
- The network is a table from URL to reply bytes. Timeouts, redirects and partial reads are not modelled.
- The file system is flat: paths are strings, and only the cache directory and its files are tracked. Symbolic links, permissions and `~user` expansion are not modelled.
- Tor.Decode: the list file is read with the locale's text codec. The model decodes ASCII only, so a non-ASCII file always raises UnicodeDecodeError here. Under a UTF-8 locale the source decodes it instead. It then raises ValueError from `ip_address`, or loads the file when the only non-ASCII characters are Unicode blanks (such as U+00A0) between valid addresses.
- `map_ssh_attacks`' GEOIP_DBS is built at import time from files in the working directory. The model takes the loaded map as a parameter.
- Printing (the "Updating…", "Loading…" and warning lines) is not modelled.
- Plot.Tally: the dictionary's items are taken in insertion order, which Python guarantees from 3.7. Under Python 3.4 a dict iterates in hash order, so the order of bars with equal counts is a choice of the model there.
- Plot.SortByCount: `sorted` is modelled as a stable insertion sort. Only its result is specified, so the algorithm used does not matter.
- Plot.BarPlot: the source counts inside one loop that branches on `prop`. The model checks `prop` first and runs a loop per property. An unknown `prop` raises ValueError in both, after the GeoIP object is created and before anything is counted.
- Plot.BarPlot: `attempts` is a finite sequence of attempts already produced, not a lazy generator. An exception raised by the log parser part-way is not interleaved with the counting.
