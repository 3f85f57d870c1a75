# billion-air-flow system utilities, modelled in Dafny

This project models the data-handling core of the billion-air-flow tooling:

- **System diagnostics** (`utils/sysinfo.py`):
  - the friendly CPU name;
  - the vendor clean-up and the Linux and Windows system-model strings;
  - `bytes_to_str`;
  - the storage records that the Windows `Get-PhysicalDisk` listing and the Linux `lsblk` device list give, including the media-type, size and device-filter rules;
  - the Windows RAM aggregation (speeds sorted and de-duplicated, one memory type or the list of them);
  - the Linux `MemTotal` rounding up to a multiple of 4 GB;
  - `get_linux_distro`;
  - the one-line `system_summary`;
  - `make_bar`, the bar-width clamp and `snapshot_dashboard`.
- **Tier paths** (`utils/filesystem.py`): the hot and cold directories of a dataset. They are created when absent, and warned about when the process may not create them. The paths are returned unless an exception escapes: a regular file at a path, or an OSError other than PermissionError.
- **CSV reconstruction** (`scripts/reconstruct_csvs.py`):
  - the walk over a Parquet tree;
  - the year and month filters;
  - the mirrored output paths;
  - skipping of outputs that already exist;
  - the per-file DuckDB conversion, whose failures are isolated.
- **Python stack summary** (`utils/pystackinfo.py`): the DevStack dictionary built from a requirements file, and its one-line summary.

The model works as follows:

- Python strings are `seq<char>`.
- The JSON values the collectors pass around are a small `Value` datatype with Python's truthiness and `str()`.
- An exception that escapes a function is a `None` result or an `abort`/`raised` flag.
- Everything the program asks the operating system is a parameter:
  - file contents (`None` when the file cannot be opened);
  - command output;
  - the importer;
  - the conversion engine;
  - the directory walk;
  - the directories whose creation fails, each with the error it raises.
- Python's `round` of an exact fraction is round-half-to-even on rationals (`Units.RoundDiv`).

The modules are:

- `PyStr`, `PyValue`, `PyDict` and `PyPath`: Python library behaviour the core relies on.
- `Units`: `bytes_to_str`.
- `CpuName`: `make_friendly_cpu_name`.
- `SystemModel`: `get_system_model`.
- `Storage`: `get_storage_info`.
- `Ram`: `get_ram_info`.
- `OsRelease`: `get_linux_distro`.
- `Summary`: `system_summary`.
- `Dashboard`: `make_bar` and `snapshot_dashboard`.
- `Disk`: the file system as a class updated in place.
- `Tiers`: `filesystem_data_paths`.
- `Reconstruct`: `scripts/reconstruct_csvs.py`.
- `PyStack`: `utils/pystackinfo.py`.

## Model

| member | source | states |
|---|---|---|
| PyStr.LStripSpec | utils/sysinfo.py:206 | `lstrip()` removes exactly the leading whitespace: what is removed is whitespace and what remains starts with a non-space character |
| PyStr.RStripSpec | utils/sysinfo.py:206 | `rstrip()` removes exactly the trailing whitespace |
| PyStr.StripEnds | utils/sysinfo.py:206 | `strip()` leaves no whitespace at either end |
| PyStr.SplitOnceSpec | utils/sysinfo.py:485 | `split(sep, 1)`: the head has no occurrence of the separator, and head + sep + tail rebuilds the string; no separator means no tail |
| PyStr.StripCharWrapped | utils/sysinfo.py:651 | `strip('"')` removes one pair of surrounding quotes from a value that has no quote at its ends |
| PyStr.NatToStrValue | utils/sysinfo.py:212 | `str(n)` is a digit string whose value is `n` |
| PyStr.DigitsRoundTrip | utils/sysinfo.py:212 | `str(int(d))` gives `d` back for a digit string without a leading zero |
| PyStr.ParseIntOfIntToStr | scripts/reconstruct_csvs.py:53 | `int(str(i))` is `i` |
| PyStr.ParseDigits | scripts/reconstruct_csvs.py:53 | `int()` of a digit string is its value, and of the string with a leading '-' the negated value |
| PyStr.ReplaceAllLacks | scripts/reconstruct_csvs.py:60 | `replace(old, new)` never introduces a character that is in neither the text nor `new` |
| PyStr.JoinWithEndsWith | utils/pystackinfo.py:54 | `sep.join(parts)` ends with the last part |
| PyStr.JoinWithStartsWith | utils/sysinfo.py:745 | `sep.join(parts)` starts with the first part |
| PyDict.AssignKeys | utils/sysinfo.py:486 | after a loop of `d[k] = v` assignments, a key is present exactly when some step assigned it |
| PyDict.AssignLast | utils/sysinfo.py:486 | the value of a present key is the one its last assignment stored |
| Units.RoundDiv | utils/sysinfo.py:449-452 | Python's `round(n / d)`: the nearest integer, with a tie going to the even one |
| Units.RoundDivUnique | utils/sysinfo.py:449-452 | only one integer meets that rounding rule |
| Units.RoundDivAtLeast | utils/sysinfo.py:453 | `round(n / d) >= k` holds exactly when `n / d` lies above `k - 1/2`, or on it with `k` even |
| Units.BytesToStr | utils/sysinfo.py:445-453 | `bytes_to_str`: "Unknown" for `None`; from 999 500 000 000 bytes the count rounded in TB, from 999 500 000 in GB, from 999 500 in MB, above 500 in KB, and up to 500 the count itself with "B" |
| Units.ChooseUnitThresholds | utils/sysinfo.py:449-453 | the byte counts at which TB, GB, MB, KB and B are chosen, with ties rounding half to even |
| Units.ShownRange | utils/sysinfo.py:449-453 | GB, MB and KB figures lie in 1..999, TB figures are at least 1, and bytes are shown as given |
| Units.FiveGigabytes | utils/sysinfo.py:445-453 | 5 000 000 000 bytes give "5GB" |
| Units.HalfRoundsToEven | utils/sysinfo.py:449-453 | 2500 bytes give "2KB", because the tie rounds to even |
| CpuName.LastGhz | utils/sysinfo.py:205 | the end of the last "GHz" in a line, with no later one (the greedy `@.*GHz`) |
| CpuName.Scrub | utils/sysinfo.py:205 | removing the trademark, "CPU" and clock-speed matches never lengthens the name |
| CpuName.ScrubTrademark | utils/sysinfo.py:205 | "(R)", "(TM)" and "CPU", in any case, are removed |
| CpuName.ScrubClock | utils/sysinfo.py:205 | "@ … GHz" on one line is removed entirely |
| CpuName.ScrubKeeps | utils/sysinfo.py:205 | a character that cannot start a match is kept |
| CpuName.ScrubNoTokens | utils/sysinfo.py:205 | a name with no match is unchanged |
| CpuName.ScrubPlain | utils/sysinfo.py:205 | text with no '(' or '@', and no "c" followed by "p" in any case, is kept whatever follows it |
| CpuName.ScrubClockAfter | utils/sysinfo.py:205 | a clock speed "@ … GHz" after such text is removed and the text is kept |
| CpuName.CollapseSpacesSpec | utils/sysinfo.py:206 | `re.sub(r"\s+", " ")` keeps the visible characters, leaves single spaces and keeps the words of `split()`, so each run between two words becomes one space |
| CpuName.NormalizeSpec | utils/sysinfo.py:206 | the normalised name is `" ".join(s.split())`: no edge whitespace, single inner spaces, and the input's visible characters in order |
| CpuName.FindIntelLeftmost | utils/sysinfo.py:209 | `re.search` finds the leftmost family-dash-digits match, or reports that there is none |
| CpuName.IntelAtSpec | utils/sysinfo.py:209 | a match spells i3/i5/i7/i9, '-', and 3 to 5 digits; fewer than 5 digits means the whole digit run; a family, '-' and three digits always match |
| CpuName.IntelRewriteSpec | utils/sysinfo.py:209-219 | a match gives "Intel Core <family>-<int(digits)>" with no generation text; otherwise the name is kept |
| CpuName.FriendlyCpuNameSpec | utils/sysinfo.py:200-225 | an empty name gives "Unknown CPU"; a name with a model number gives its Intel Core rewrite; any other name is the words of the scrubbed name joined by single spaces |
| CpuNameExample.FriendlyCpuNameExample | utils/sysinfo.py:200-219 | "Intel(R) Core(TM) i7-8700 CPU @ 3.20GHz" becomes "Intel Core i7-8700" |
| SystemModel.TrimJunkSpec | utils/sysinfo.py:95 | `re.sub(r"[.,\s]+$", "")` removes exactly the trailing run of '.', ',' and whitespace |
| SystemModel.CompanyWordSpec | utils/sysinfo.py:98 | which of inc, ltd, corp, co (any case, at a word boundary, at the end) is found |
| SystemModel.CleanVendorSpec | utils/sysinfo.py:94-101 | the cleaned vendor is the trimmed text with a final company word cut off and trimmed again |
| SystemModel.CleanVendorPrefix | utils/sysinfo.py:94-101 | the cleaned vendor is a prefix of the input with no junk at its end |
| SystemModel.CleanVendorDropsSuffix | utils/sysinfo.py:94-101 | "<name> <company word>." cleans to the name |
| SystemModel.DellExample | utils/sysinfo.py:94-101 | "Dell Inc." cleans to "Dell" |
| SystemModel.LinuxSystemModelSpec | utils/sysinfo.py:79-137 | vendor and model joined by a space, whichever is non-empty, or the node name; a read error other than a missing file gives "Unknown System" |
| SystemModel.WindowsSystemModelSpec | utils/sysinfo.py:35-137 | the cleaned vendor, a space, and the Version, or the Name when the Version is blank; any failed query gives "Unknown System" |
| Storage.ParseBlock | utils/sysinfo.py:482-486 | the loop over a block's lines builds the dictionary of its "key: value" lines |
| Storage.WindowsMediaType | utils/sysinfo.py:493-503 | USB for USB; for NVMe/SATA the reported SSD/HDD, else the bus; else the bus, or "Unknown" when it is empty |
| Storage.WindowsMediaTypeRange | utils/sysinfo.py:493-503 | the media type is USB, SSD, HDD, Unknown or the bus itself |
| Storage.WindowsSize | utils/sysinfo.py:509 | digits go through `bytes_to_str`, other text is kept, and a missing or empty size is `None` |
| Storage.WindowsDrive | utils/sysinfo.py:488-512 | exactly the six keys of a drive record: Model, Manufacturer and Serial from FriendlyName, Manufacturer and SerialNumber (None when absent), Size through the size conversion, BusType upper-cased and MediaType decided from it |
| Storage.WindowsStorage | utils/sysinfo.py:472-514 | one record per non-empty block, in order; a command failure gives a single error entry |
| Storage.WindowsDrivesSpec | utils/sysinfo.py:481-512 | no more drives than blocks, and each media type is a fixed name or the drive's own bus |
| Storage.FilterDevices | utils/sysinfo.py:524-528 | the filter raises exactly when a device has no string name; otherwise it keeps the devices not named loop* or ram* |
| Storage.KeptDevicesSpec | utils/sysinfo.py:524-528 | the kept devices are exactly the input devices whose names pass the filter |
| Storage.KeptDevicesAppend | utils/sysinfo.py:524-528 | the filter works device by device: the devices of two runs are filtered run by run, and a single device is kept, once, exactly when its string name passes; so order and repetitions are kept |
| Storage.LastPieceSpec | utils/sysinfo.py:547 | `split(' ')[-1]` is the space-free suffix after the last space |
| Storage.LinuxMediaType | utils/sysinfo.py:551-556 | SATA/NVMe drives are SSD exactly when the rotational flag reads "0", else HDD; any other bus is its own media type |
| Storage.LinuxSize | utils/sysinfo.py:563 | a non-empty string is kept, a number goes through `bytes_to_str`, a falsy size is `None`, and a list raises |
| Storage.LinuxRecord | utils/sysinfo.py:558-566 | exactly the seven keys of a record and no Error key: Device is /dev/<name>; model, vendor and serial are the device's fields (default "") stripped when they are text; with its size, bus and media type |
| Storage.LinuxEntrySpec | utils/sysinfo.py:530-568 | a device gives an error entry exactly when the transport or size raises or the rotational file is missing; otherwise the record follows the bus rules |
| Storage.TransportBus | utils/sysinfo.py:537-547 | the bus is the last word of the transport, and "UNKNOWN" for a missing or empty transport |
| Storage.LinuxStorage | utils/sysinfo.py:516-568 | `None` when the name filter raises; otherwise one entry per kept device, in order |
| Storage.LinuxRecords | utils/sysinfo.py:530-568 | the loop over the kept devices gives one entry each, in order |
| Ram.DigitField | utils/sysinfo.py:285-290 | a field counts exactly when it is truthy and its `str()` is all digits |
| Ram.AllReadableSpec | utils/sysinfo.py:273 | the DIMM loop raises exactly when some capacity cannot be read by `int()` |
| Ram.CollectDimms | utils/sysinfo.py:272-290 | the loop reports a raise exactly when some capacity is unreadable, else the speeds and type names in DIMM order |
| Ram.SpeedsFromRecords | utils/sysinfo.py:285-286 | every collected speed comes from some DIMM's speed field |
| Ram.SortedSet | utils/sysinfo.py:299 | `sorted(set(speeds))` is strictly increasing with the same members |
| Ram.IncreasingUnique | utils/sysinfo.py:299 | only one strictly increasing sequence has a given set of members |
| Ram.MemoryTypeOf | utils/sysinfo.py:300-301 | no type when none was found; one name when all agree; the whole list when two differ |
| Ram.WindowsRamInfo | utils/sysinfo.py:245-304 | on an already parsed DIMM list, the error flag is set exactly when a capacity is unreadable; otherwise the sorted distinct speeds and the memory type |
| Ram.AdvertisedGbSpec | utils/sysinfo.py:316-317 | the advertised size is the least multiple of 4 GB that holds MemTotal |
| Ram.FirstStarting | utils/sysinfo.py:313-314 | the first line starting with "MemTotal:", with no earlier one |
| Ram.ScanMeminfo | utils/sysinfo.py:311-323 | an unopenable file sets the error; otherwise the first MemTotal line's rounded size, and an error when that line does not parse |
| Ram.SixteenGigabytes | utils/sysinfo.py:316-317 | a 16 GiB machine with some reserved memory advertises 16 GB |
| OsRelease.EntrySpec | utils/sysinfo.py:649-651 | a line with '=' gives the stripped line's key up to the first '=' and the rest without quotes; a line without '=' gives nothing |
| OsRelease.Render | utils/sysinfo.py:652 | the NAME and VERSION joined by a space, with "None" in place of each missing one and the present value kept |
| OsRelease.LinuxDistro | utils/sysinfo.py:644-654 | "Linux <release>" when the file cannot be opened, else the rendering of the dictionary the lines build |
| OsRelease.DataSpec | utils/sysinfo.py:648-651 | a key is in the dictionary exactly when some line assigns it, and its value is the last such line's |
| Summary.WithCountsSpec | utils/sysinfo.py:733-737 | the counts go inside a final ')' after ", ", or in " (…)" of their own |
| Summary.SpeedsTextSpec | utils/sysinfo.py:745 | given speeds give '-', then the speeds joined by ',', starting with the first and ending with the last |
| Summary.RamTextSpec | utils/sysinfo.py:740-748 | the RAM text is "<total>GB ", the memory type followed by the speeds text, and " RAM"; it raises exactly when the speeds are truthy but not iterable |
| Summary.BusVendorBlanked | utils/sysinfo.py:754-757 | a SATA/ATA/NVME vendor, in any case and with any padding, shows as no vendor |
| Summary.MissingModel | utils/sysinfo.py:760 | a missing model shows as "UnknownDrive" |
| Summary.DrivePartSpec | utils/sysinfo.py:753-763 | a drive part has no edge whitespace; it raises exactly when the vendor is truthy and not a string; a non-blank string vendor that is no bus name gives "<vendor> <model> <size> <media type>", a falsy or bus-name vendor gives "<model> <size> <media type>" (ends free of whitespace) |
| Summary.StoragePartsSpec | utils/sysinfo.py:751-763 | the parts exist exactly when no drive raises, and they are the drives' parts in order |
| Summary.StorageText | utils/sysinfo.py:751-764 | the storage loop gives the parts joined by " \| ", or raises |
| Summary.GpuTextSpec | utils/sysinfo.py:770-774 | the GPU text is empty when GPUs are off, absent or erroneous; it raises exactly when an entry lacks "GPU"; it has no edge whitespace; otherwise it is the names joined by " ," (outer ends free of whitespace) |
| Summary.LineSpec | utils/sysinfo.py:776-781 | each segment sits at its offset: system, CPU with " CPU", RAM, storage, and OS with " OS", separated by " \| "; then " \| <gpu> GPU" only for non-empty GPU text; then " \| " and the Python stack |
| Summary.SystemSummarySpec | utils/sysinfo.py:721-783 | the summary exists exactly when no part raises, and then lays out the system, the CPU text, the RAM text, the drive parts joined by " \| ", the OS, the GPU text and the Python stack; no GPU segment when GPUs are off or the first entry is an error |
| Dashboard.MakeBarShape | utils/sysinfo.py:789-792 | '[', round(width·fraction) '#'s (none if negative), '.'s up to the width, ']' — no clamping |
| Dashboard.FilledRange | utils/sysinfo.py:789-792 | for a fraction in [0, 1] the bar is exactly width + 2 long, with 0..width '#'s |
| Dashboard.EmptyBar | utils/sysinfo.py:789-792 | a zero fraction gives all '.'s |
| Dashboard.FullBar | utils/sysinfo.py:789-792 | a whole fraction gives all '#'s |
| Dashboard.BarWidthRange | utils/sysinfo.py:798 | the bar width lies in 10..40, and is a quarter of the columns in between |
| Dashboard.PadLeft | utils/sysinfo.py:802 | right alignment keeps the text at the end and pads to the width with spaces |
| Dashboard.PercentTextWidth | utils/sysinfo.py:802 | `{pct:5.1f}` takes five columns up to 999.9 and ends in '.' and the tenths digit |
| Dashboard.SnapshotDashboard | utils/sysinfo.py:795-814 | `None` for a zero RAM total; otherwise the heading, one line per core in order, and the RAM heading and bar |
| Dashboard.DashboardShape | utils/sysinfo.py:800-812 | the dashboard has cores + 3 lines, with the headings in place, core k's line at k + 1 and the RAM bar with its figures last |
| PyPath.JoinSpec | scripts/reconstruct_csvs.py:57-60 | `os.path.join` restarts at an absolute second part, and otherwise starts with the first and ends with the second |
| PyPath.DirnameOfJoin | scripts/reconstruct_csvs.py:22 | `dirname(join(d, f))` is `d` for a plain file name |
| Disk.MakeDirs | utils/filesystem.py:42 | `os.makedirs(p, exist_ok=True)` succeeds exactly when p is a directory or is absent and not refused, and adds only p; a file at p raises FileExistsError; an absent, refused p raises PermissionError or another OSError, as refused |
| Disk.Disk.MakeDirsAt | scripts/reconstruct_csvs.py:22 | the in-place call has the effect the snapshot function describes |
| Disk.Disk.WriteFile | scripts/reconstruct_csvs.py:32-36 | writing adds the file and changes no directory |
| Tiers.Root | utils/filesystem.py:31-34 | D:/ and E:/ on Windows; /hotdata and /colddata elsewhere |
| Tiers.FilesystemDataPaths | utils/filesystem.py:14-51 | both tiers are mapped to their paths unless an exception escapes, and the disk changes as the loop specifies |
| Tiers.ResolveAfterRaise | utils/filesystem.py:37-49 | once an exception escapes, later tiers change nothing |
| Tiers.ResolvedMap | utils/filesystem.py:36-51 | the map holds both tiers with their paths whether or not the directories could be created |
| Tiers.ResolveStepWarnings | utils/filesystem.py:41-47 | a regular file at the tier path raises FileExistsError; otherwise a tier raises exactly when its absent directory fails with an OSError other than PermissionError; otherwise it warns twice exactly when the directory is absent and may not be created |
| Tiers.WarningsExact | utils/filesystem.py:37-49 | an exception escapes exactly when a tier's absent directory fails with an OSError other than PermissionError; otherwise the warnings and the directories created over both tiers |
| Tiers.TierPathsDistinct | utils/filesystem.py:32-39 | hot and cold paths differ unless the dataset is an absolute POSIX path |
| Tiers.PosixTierPathStart | utils/filesystem.py:34-39 | a relative dataset lives under /<tier>data |
| Tiers.AbsoluteDatasetCollapsesTiers | utils/filesystem.py:39 | an absolute dataset replaces both roots |
| Reconstruct.ConvertEffect | scripts/reconstruct_csvs.py:20-40 | the output directory is made first, an existing output is skipped, and only a successful COPY adds the file |
| Reconstruct.ConvertParquetToCsv | scripts/reconstruct_csvs.py:20-40 | the in-place conversion has the effect of the snapshot function, and a skip writes nothing |
| Reconstruct.VisitFile | scripts/reconstruct_csvs.py:46-62 | one file of the walk is handled as one step |
| Reconstruct.VisitDir | scripts/reconstruct_csvs.py:45-62 | one directory of the walk extends the run by its files |
| Reconstruct.ProcessAllParquet | scripts/reconstruct_csvs.py:43-62 | the whole walk is the run over the flattened entries |
| Reconstruct.SelectTake | scripts/reconstruct_csvs.py:47-54 | a converted file ends in .parquet and contains the year and the "-MM" month token when they are given |
| Reconstruct.MonthRuleSpec | scripts/reconstruct_csvs.py:53 | no month or an empty one means no filter; a non-number raises; a number gives "-%02d" |
| Reconstruct.MonthTokenDigits | scripts/reconstruct_csvs.py:53 | a month below 100 gives '-' and two digits with its value |
| Reconstruct.MonthTwo | scripts/reconstruct_csvs.py:53 | month "2" looks for "-02" |
| Reconstruct.StepReport | scripts/reconstruct_csvs.py:46-62 | each step adds one attempt for a chosen file, or nothing |
| Reconstruct.SelectedAreChosen | scripts/reconstruct_csvs.py:47-54 | every selected file passes the filters |
| Reconstruct.AttemptedAreSelected | scripts/reconstruct_csvs.py:45-62 | the attempted files are the chosen files in walk order, up to the one that raised |
| Reconstruct.BadMonthChangesNothing | scripts/reconstruct_csvs.py:53 | a non-numeric month changes nothing, and raises exactly when some file reaches the month test |
| Reconstruct.CsvName | scripts/reconstruct_csvs.py:60 | "<stem>.parquet" becomes the replaced stem plus ".csv" |
| Reconstruct.RelPathShape | scripts/reconstruct_csvs.py:56 | the relative path is non-empty, with no slash at either end |
| Reconstruct.OutFileShape | scripts/reconstruct_csvs.py:59-60 | the output file lies directly in the mirrored directory and ends in .csv |
| Reconstruct.RunFiles | scripts/reconstruct_csvs.py:24-26 | the batch adds exactly the outputs it converted, none of which existed before, and removes nothing |
| Reconstruct.RunSettles | scripts/reconstruct_csvs.py:43-62 | after a batch that did not raise, every file is settled |
| Reconstruct.RunOnSettled | scripts/reconstruct_csvs.py:24-26 | a batch over settled files changes nothing and converts nothing |
| Reconstruct.RerunConvertsNothing | scripts/reconstruct_csvs.py:24-26 | re-running a batch that did not raise, with the engine answering as before, converts nothing and changes nothing |
| Reconstruct.AttemptsFromWalk | scripts/reconstruct_csvs.py:45-62 | every attempt is a file of the walk that passes the filters |
| Reconstruct.RunLeavesFailures | scripts/reconstruct_csvs.py:24-40 | after a batch that did not raise, each chosen file has its output or a failed attempt |
| Reconstruct.RerunRetriesOnlyFailures | scripts/reconstruct_csvs.py:24-40 | a re-run with any engine rewrites no file present after the first run, removes nothing, and converts only files whose first conversion failed |
| PyStack.PutKeys | utils/pystackinfo.py:41-43 | assigning a key keeps the key order, and appends the key when it is new |
| PyStack.PutValues | utils/pystackinfo.py:41-43 | assigning a key changes only its own entry |
| PyStack.DevStack | utils/pystackinfo.py:24-44 | no file gives an empty stack; otherwise the line loop, which raises as a whole once a line raises |
| PyStack.RunUnique | utils/pystackinfo.py:41-43 | every package appears once in the stack |
| PyStack.BlankLineRaises | utils/pystackinfo.py:27-30 | a blank line raises, because `split()[0]` has nothing to index |
| PyStack.OmittedLine | utils/pystackinfo.py:29-31 | a line carrying "-omit-info" adds nothing |
| PyStack.RecordedLine | utils/pystackinfo.py:30-43 | a package is recorded under its first word with its version, "N/A" or "not_installed", imported by the text after "import-name" when that is present |
| PyStack.Summary | utils/pystackinfo.py:51-54 | "Python <first word of the version> \| " followed by the "key: value" pairs joined by ", ", with nothing between (head, join and length); raises when the version is blank |
| PyStack.PystackSummary | utils/pystackinfo.py:48-56 | no file gives the summary of an empty stack; a stack that raises makes it raise; otherwise it is the summary of the stack the lines build |

## Left out

- **I/O and the platform.** The following are all parameters rather than part of the model:
  - PowerShell, WMIC, `lsblk`, `decode-dimms`, `platform`, `psutil`, `shutil`, `os.walk` and `importlib`;
  - the files read, and the directories whose creation fails.
- **Other platforms.** The macOS branches of `get_system_model`, `get_storage_info` and `get_os_info` are not part of this model. Neither are `get_cpu_info`'s collection of the raw name, `get_gpu_info`, `get_system_diagnostics` and `is_linux_storage_removable`. Their results enter `Summary.SystemSummary` as a given `Diagnostics` record.
- **Floating point.**
  - `round` and `/` are modelled on exact rationals.
  - Fractions in `Dashboard` are numerators over denominators; CPU loads are in tenths of a percent.
  - The dashboard's RAM figures after the bar are a given string.
  - The Windows DIMM sizes in GiB and `Usable RAM (GiB)` are not modelled.
- Ram.AdvertisedGbSpec: the ceiling is taken on exact kB/GiB, not on a float.
- **Regular expressions, `upper()` and `isdigit()` are ASCII-only.** `\s` and `strip()` use Python's full whitespace set.
- **`re.split(r"\n\s*\n", …)`** on the PowerShell output: the blocks arrive already split.
- **Exception texts** (`str(e)`) are parameters. So is the Windows RAM error path's message.
- **`print` side effects** are not modelled: the STORAGE dump, the warnings' text and the conversion progress. The tier warnings are a `Warning` sequence instead.
- **`repr` escaping** of strings inside lists is not modelled; `PyValue.Repr` quotes without escaping.
- Summary.WithCounts: the `re.sub(r"\)$", …)` replacement is treated as plain text. Backslashes in the core or thread counts are not interpreted.
- **`__version__`** is modelled as a string; other types rendered by `str()` are not.
- Disk.FsState: paths are compared as strings. "." segments and doubled slashes are not normalised, so a file at the walk root, whose output is spelt "<out>/./<name>.csv", is not found under "<out>/<name>.csv"; the skip-if-exists rule and Reconstruct.RunFiles hold for snapshots that spell paths the way the program builds them.
- Disk.MakeDirs: only the leaf directory is created. Missing intermediate directories, and a file among the ancestors, are not modelled.
- **DuckDB's COPY** is an oracle on (input, output). A failed COPY is modelled as leaving no output file.
- Reconstruct.RerunConvertsNothing: the re-run uses the same engine, which answers as it did the first time. A COPY that failed for a passing reason can succeed on a re-run; Reconstruct.RerunRetriesOnlyFailures states the re-run for any engine.
- **The Windows path join** is modelled only as a drive root followed by the dataset; `ntpath` rules are not.
- **`main` and `argparse`** in `scripts/reconstruct_csvs.py` are not part of this model. `process_all_parquet` takes its roots as arguments.
- Ram.WindowsRamInfo: a PowerShell failure or output that is not a JSON list of records (which also sets Error) is not modelled; the DIMM list arrives parsed.
- Storage.LinuxStorage: an `lsblk` failure or malformed JSON (an uncaught exception) is not modelled. The device list arrives parsed.
- **Ram:** the Linux `decode-dimms` parsing is not part of this model, and neither are the DIMM sizes.
- Summary.VendorText: Windows records have no "Vendor" key, so Windows drives always show no vendor.
