# lizard-scrapelib in Dafny

lizard-scrapelib is a set of ETL scripts. They fetch hydrological and meteorological
data (NOAA GHCN-Daily, the Mekong River Commission's hydrology tables, GPM IMERG rain
files, MODIS evapotranspiration tiles) and write it as PI-XML time series for the Lizard
platform. This project models the deterministic core of those scripts and proves
properties of the model:

- **Noaa** (`noaa.py`):
  - the by-year CSV reader `read_file`;
  - the fixed-width `.dly` parser `parse_dly`;
  - the daily diff file enumeration `superghcnd_filelist`;
  - the run-mode choice in `main`.
- **Mekong** (`mrcmekong.py`):
  - `walk_element_text`, `days_in_month` and `read_cols`;
  - the `station_names` table;
  - the station and page plan of `create_timeseries_pixml`, with the length of every series it builds.
- **PiXmlUtils** (`utils/pixml.py`):
  - `header`;
  - `create`: header order, events, start and end dates, header elements, the in-place consumption of both input dictionaries, the temporary file and the final splice;
  - `remove_xml_version`.
- **PiXml** (`pixml.py`): the older `create`, whose final file splices the temporary file in verbatim.
- **Command** (`utils/command.py`):
  - the config name derivation of `read_config`;
  - the `store_to_dict` decorator;
  - argument registration and the rules `argparser` applies after parsing.
- **Gpm** (`gpm.py`): `strfy` and `filelist`.
- **Handlers** (`utils/handlers.py`): the output names of `ungzip` and `untar`.
- **ModisEt** (`modis_et.py`):
  - the directory enumeration of `main`;
  - the error mapping of `ftplist`;
  - the tile pick and the geotiff path;
  - the nodata remap of `hdf_subdataset_extraction`.

Shared modules model the Python pieces the scripts rely on:

- `Wrappers`:
  - Python exceptions as a `Result`;
  - a generator as `Yielded(items, stop)`, the items yielded before the exception that stopped it.
- `PyText`: `str.split`, `join`, `strip`, slicing, `int()` and `str()` of integers, zero padding.
- `Calendar`:
  - the proleptic Gregorian calendar of `datetime` (years 1-9999);
  - ordinals, weekdays, `timedelta` steps, `isoformat` and `strftime`.
- `PyValue`: Python values with truthiness and `str()`.
- `Paths`: `os.path.join`, `basename` and `splitext` on POSIX paths.
- `PyFile`:
  - `for line in f` over a text;
  - `re.sub` of a literal pattern.
- `PyDict`: a dict with insertion order that the code deletes from in place (`OrderedDict`, a class).

Where the code loops over mutable state it is modelled as a method with loop invariants. The method is proved equal to a specification function, and the properties are proved about that function as lemmas. Functions cover the logic that is a pure expression. I/O, the network, lxml, XPath, float parsing, `datetime.now()` and the serialised XML are parameters of the model.

## Model

| member | source | states |
|---|---|---|
| Noaa.CsvFields | lizard_scrapelib/noaa.py:73-74 | a line unpacks only into exactly 8 comma-free fields; any other count is a ValueError |
| Noaa.CsvFieldsOfLine | lizard_scrapelib/noaa.py:73-74 | any 8 comma- and newline-free fields written as a CSV line come back unchanged |
| Noaa.CsvRecordFieldCount | lizard_scrapelib/noaa.py:73-74 | a line that does not split into 8 fields raises ValueError, whatever its content |
| Noaa.ObservedAtDate | lizard_scrapelib/noaa.py:76-83 | an accepted time field gives a valid datetime on the same date that an empty time field gives as midnight |
| Noaa.ObservedAtClock | lizard_scrapelib/noaa.py:76-83 | a time "HHMM" sets the hour to HH modulo 24 and the minute to MM, on the date of the date field |
| Noaa.HourTwentyFour | lizard_scrapelib/noaa.py:79 | "2400" is midnight of the same date, not of the next day |
| Noaa.Scaled | lizard_scrapelib/noaa.py:86 | the value is the parsed float times the conversion, and fails exactly when the text does not parse |
| Noaa.FieldsRecordKept | lizard_scrapelib/noaa.py:84-92 | a yielded record has an element in the codes, station "NOAA_"+id, series station+"#"+element, the ISO datetime with "Z", the flag from the Q-flag (field 5), and value None or raw times conversion as delete_values says |
| Noaa.FieldsRecordFiltered | lizard_scrapelib/noaa.py:76-92 | a bad date raises even on a filtered-out line; a filtered line yields nothing; a missing conversion is a KeyError; with values kept, a value that does not parse is a ValueError before the flag is looked up, and then a missing flag code is a KeyError; with values deleted, a missing flag code is a KeyError |
| Noaa.ReadFile | lizard_scrapelib/noaa.py:71-92 | the loop yields exactly what the line-by-line specification yields, up to the first exception |
| Noaa.ReadFileInOrder | lizard_scrapelib/noaa.py:71-92 | reading two parts of a file one after the other is reading the whole file: records stay in file order and an exception ends the generator |
| Noaa.ReadFileYields | lizard_scrapelib/noaa.py:71-92 | every record comes from a line of the file; the generator ends normally iff every line parses, and otherwise stops with the error of the first failing line |
| Noaa.SlotsSpec | lizard_scrapelib/noaa.py:187-188 | the 31 day slots read the value at [21+8(d-1), 26+8(d-1)) and the flag at 27+8(d-1); the list exists iff every slot parses |
| Noaa.DaySlots | lizard_scrapelib/noaa.py:187-188 | a per-slot computation over the 31 slot offsets succeeds iff it succeeds on every day, and then item d-1 is day d's result |
| Noaa.RecordedIffNotMissing | lizard_scrapelib/noaa.py:194 | with a non-zero conversion a day is kept iff its raw value is not -9999; with a zero conversion no day is kept |
| Noaa.MonthDays | lizard_scrapelib/noaa.py:189-194 | the dates of a valid month are as many as the month's length |
| Noaa.DayObservationSpec | lizard_scrapelib/noaa.py:189-194 | a date reads slot day-1; it is dropped iff not recorded, a KeyError iff its flag has no flag code, and otherwise gives its ISO date with "Z", the scaled value and the mapped flag |
| Noaa.ListedDateContributes | lizard_scrapelib/noaa.py:189-194 | every listed date with an observation puts it into the month's data |
| Noaa.CalendarMonthObservations | lizard_scrapelib/noaa.py:189-194 | over the month's own days: the month succeeds iff each day does, every observation comes from one of its days, and each day's observation is included |
| Noaa.PaddedFebruary2017 | lizard_scrapelib/noaa.py:193 | `itermonthdates(2017, 2)` lists 35 dates: 2017-01-30 first, 2017-02-28 at position 29 and 2017-03-01 at position 30 |
| Noaa.MisdatedMarchFirst | lizard_scrapelib/noaa.py:189-194 | as written, a February 2017 line with a recorded day-1 value emits a record dated 2017-03-01 that carries February's day-1 value |
| Noaa.CorrectedFebruaryStaysInFebruary | lizard_scrapelib/noaa.py:189-194 | over the calendar month only, no February record is dated 2017-03-01 |
| Noaa.MisdatedMarchFirstInFile | lizard_scrapelib/noaa.py:177-197 | as written, `parse_dly` of a one-line file holding a February 2017 line of the element, with a recorded day-1 value, returns a record dated 2017-03-01 carrying that value |
| Noaa.DlyMonthSpec | lizard_scrapelib/noaa.py:182-186 | year and month must parse (else ValueError); a line counts only if its element matches and its month's first day is on or after from_date |
| Noaa.LineObservationsSpec | lizard_scrapelib/noaa.py:182-194 | a line's contribution is empty when it does not count, its slot error if a slot fails, and otherwise the month's observations from its slots |
| Noaa.ParseDly | lizard_scrapelib/noaa.py:177-197 | the loop over the lines returns exactly the specification's result: station, series and data, or the first error |
| Noaa.ParseDlyNames | lizard_scrapelib/noaa.py:178-197 | an unknown element is a KeyError; no lines is a NameError (`line` unbound); the station comes from the first 11 characters of the last line, matched or not |
| Noaa.ParseDlyFromLines | lizard_scrapelib/noaa.py:181-194 | every observation returned comes from one of the file's lines |
| Noaa.ElapsedFromMidnight | lizard_scrapelib/noaa.py:253 | from a midnight start, `(now - start).days` is the difference of the ordinals |
| Noaa.DiffNamesCover | lizard_scrapelib/noaa.py:248-256 | there is one name per day from the start to today inclusive, and the last one starts today |
| Noaa.DiffNameAt | lizard_scrapelib/noaa.py:250-256 | name k is `superghcnd_diff_{start+k}_to_{start+k+1}.tar.gz`, for two consecutive days |
| Noaa.AvailablePrefix | lizard_scrapelib/noaa.py:257-264 | names are yielded in order while available; the first missing one raises FileNotFound with its name |
| Noaa.SuperghcndFilesSpec | lizard_scrapelib/noaa.py:243-264 | the generator yields a prefix of the day-pair names, all available; it ends normally iff all are listed, else with FileNotFound for the first missing name |
| Noaa.ChooseModeSpec | lizard_scrapelib/noaa.py:290-309 | a truthy start year means the historical load; otherwise the recent one iff the last value is less than 365 days old, and then at most 365 diff names are needed |
| Mekong.WalkElementText | lizard_scrapelib/mrcmekong.py:520-524 | the accumulating walk returns the element's stripped own text followed by its children's texts |
| Mekong.WalkChildren | lizard_scrapelib/mrcmekong.py:522-523 | the loop over the children returns their texts concatenated in order |
| Mekong.ChildrenTextPrefix | lizard_scrapelib/mrcmekong.py:522-523 | one more child appends exactly that child's text |
| Mekong.FlatTextAppendChild | lizard_scrapelib/mrcmekong.py:522-523 | appending a child to an element appends the child's text to the element's text |
| Mekong.FlatTextIgnoresTails | lizard_scrapelib/mrcmekong.py:520-524 | the text does not depend on the tail texts anywhere in the tree |
| Mekong.ChildrenTextIgnoresTails | lizard_scrapelib/mrcmekong.py:522-523 | the children's text does not depend on their tails |
| Mekong.OwnTextTrimmed | lizard_scrapelib/mrcmekong.py:521 | the own text is empty or starts and ends with a character other than ' ', '\r', '\n', '\t' |
| Mekong.DaysInMonthSpec | lizard_scrapelib/mrcmekong.py:528-533 | the number of days of the date's month, December included; only December 9999 overflows, as a ValueError |
| Mekong.ReadCols | lizard_scrapelib/mrcmekong.py:536-558 | the nested loops yield the column-major specification's records |
| Mekong.ReadColumn | lizard_scrapelib/mrcmekong.py:540-558 | the inner loop over rows yields one column's records and returns the advanced date |
| Mekong.ColumnFromRow | lizard_scrapelib/mrcmekong.py:541-558 | a skipped row yields nothing and keeps the date; any other row yields the current date with the cell's value and flag 0, then moves on one day |
| Mekong.SkipsToEnd | lizard_scrapelib/mrcmekong.py:541-542 | once a row is skipped every later row of the column is skipped too |
| Mekong.ColumnFromDated | lizard_scrapelib/mrcmekong.py:540-558 | a column yields at most one record per row; record k is dated start+k days with flag 0; the date advances by the number of records |
| Mekong.ColumnsFromDated | lizard_scrapelib/mrcmekong.py:539-558 | over all columns, record k is dated start+k days with flag 0 |
| Mekong.ReadColsDated | lizard_scrapelib/mrcmekong.py:536-558 | record k of `read_cols` carries the start date plus k days and flag 0 |
| Mekong.MonthRest | lizard_scrapelib/mrcmekong.py:541-558 | from day d of a month the column yields the month's remaining days, in row order, and ends on the first of the next month |
| Mekong.MonthColumn | lizard_scrapelib/mrcmekong.py:539-558 | from the first of a month a column with enough rows yields exactly the month's days, one row each, and ends on the next month's first |
| Mekong.MonthColumns | lizard_scrapelib/mrcmekong.py:539-558 | n columns from a month's first yield the days of n consecutive months |
| Mekong.FloodMonths | lizard_scrapelib/mrcmekong.py:588-596 | June through October hold 153 days |
| Mekong.DryMonths | lizard_scrapelib/mrcmekong.py:617-629 | November through May hold 212 days, or 213 when the second year is a leap year |
| Mekong.FloodPageLength | lizard_scrapelib/mrcmekong.py:588-596 | a flood page (5 columns from 1 June) yields 153 records |
| Mekong.DryPageLength | lizard_scrapelib/mrcmekong.py:617-629 | a dry page (7 columns from 1 November) yields 212 or 213 records |
| Mekong.StationNamesOfSpec | lizard_scrapelib/mrcmekong.py:398 | the comprehension maps every key, in order, to the first component of its location, and fails with KeyError iff a key has no location |
| Mekong.StationNamesTable | lizard_scrapelib/mrcmekong.py:398 | the table has a name for each of the 27 stations |
| Mekong.FloodPages | lizard_scrapelib/mrcmekong.py:579-581 | a station has one flood page per year 2008-2015 |
| Mekong.DryPages | lizard_scrapelib/mrcmekong.py:606-610 | a station has one dry page per season, in season order |
| Mekong.PlansOfSpec | lizard_scrapelib/mrcmekong.py:566-568 | exactly the stations with a flood code are planned, in table order, each with its own pages |
| Mekong.PagedIndicesPrefix | lizard_scrapelib/mrcmekong.py:566-568 | every planned station has a flood code |
| Mekong.StationPagesCount | lizard_scrapelib/mrcmekong.py:579-608 | a station reads its 8 flood pages, then the 3 dry seasons unless it is in `missing_dry` |
| Mekong.SeasonStart | lizard_scrapelib/mrcmekong.py:617-621 | a season "Y_Y+1" starts on 1 November of Y |
| Mekong.DrySeasonStarts | lizard_scrapelib/mrcmekong.py:606-621 | the three dry seasons start on 1 November 2013, 2014 and 2015 |
| Mekong.FloodSeries | lizard_scrapelib/mrcmekong.py:579-604 | n flood pages give 153 n waterlevels and 153 n precipitation values |
| Mekong.DrySeries | lizard_scrapelib/mrcmekong.py:606-629 | n dry pages give 212 n waterlevels (one more with the leap season 2015-2016) and no precipitation |
| Mekong.StationSeriesLength | lizard_scrapelib/mrcmekong.py:579-631 | every station gets 1224 precipitation values, and 1861 waterlevels (1224 when in `missing_dry`) |
| PiXmlUtils.Header | lizard_scrapelib/utils/pixml.py:10-30 | a TypeError exactly when one of locationId, parameterId, stationName, lat, lon, units is None |
| PiXmlUtils.TimeStep | lizard_scrapelib/utils/pixml.py:19-21 | timeStep holds the unit, and a multiplier iff the multiplier is truthy |
| PiXmlUtils.HeaderKeys | lizard_scrapelib/utils/pixml.py:22-29 | the keys are the extra ones, the fixed ones, and moduleInstanceId iff truthy; extra keys that are not fixed keep their values |
| PiXmlUtils.HeaderFields | lizard_scrapelib/utils/pixml.py:22-29 | fixed keys take the arguments over extra ones, and startDate and endDate are None |
| PiXmlUtils.FilterSpec | lizard_scrapelib/utils/pixml.py:78-79 | the filtered order has exactly the names present in the dict, in the order's order |
| PiXmlUtils.HeaderOrderSpec | lizard_scrapelib/utils/pixml.py:75-79 | the header order is a subsequence of the fixed order with the first header's keys; x and y never appear |
| PiXmlUtils.HeaderOrderOfHeader | lizard_scrapelib/utils/pixml.py:75-79 | for a header built by `header` the order is the whole fixed list, without moduleInstanceId when that was falsy |
| PiXmlUtils.MinDateSpec | lizard_scrapelib/utils/pixml.py:85-88 | startDate is at most now and every event date, and is now or one of them |
| PiXmlUtils.MaxDateSpec | lizard_scrapelib/utils/pixml.py:86-89 | endDate is at least 0001-01-01 and every event date, and is 0001-01-01 or one of them |
| PiXmlUtils.CollectEvents | lizard_scrapelib/utils/pixml.py:84-95 | the loop builds one event per record in input order, and folds min and max from now and 0001-01-01 |
| PiXmlUtils.StrftimeSplit | lizard_scrapelib/utils/pixml.py:90-91 | splitting the strftime text on ' ' gives exactly the date and the time |
| PiXmlUtils.HeaderElementsWellFormed | lizard_scrapelib/utils/pixml.py:96-112 | with well-formed entries there is one element per name in header order, each the expected one |
| PiXmlUtils.HeaderElementsMissing | lizard_scrapelib/utils/pixml.py:106-108 | a name absent from the headerdict (other than the dates) raises KeyError |
| PiXmlUtils.EmptyTextReusesAttributes | lizard_scrapelib/utils/pixml.py:98-112 | an entry whose text is empty takes the attributes of the last dict-valued element (`val_dict` left over) |
| PiXmlUtils.EmptyTextFirstIsUnbound | lizard_scrapelib/utils/pixml.py:98-112 | an empty first entry finds no `val_dict` and raises NameError |
| PiXmlUtils.CollectHeader | lizard_scrapelib/utils/pixml.py:96-112 | the loop over the header order builds exactly the specification's elements or its error |
| PiXmlUtils.SeriesRunWellFormed | lizard_scrapelib/utils/pixml.py:80-114 | with complete headers every key gives a series with its events in order and one header element per ordered name |
| PiXmlUtils.SeriesRunMissingHeader | lizard_scrapelib/utils/pixml.py:80-82 | the first values key missing from headerdicts ends the loop with KeyError after the series before it |
| PyDict.OrderedDict.Lookup | lizard_scrapelib/utils/pixml.py:81-82 | `d[k]` is the entry of k when present, and a KeyError otherwise |
| PiXmlUtils.SeriesStepMissingHeader | lizard_scrapelib/utils/pixml.py:81-82 | a values key with no headerdict raises KeyError |
| PyDict.OrderedDict.Delete | lizard_scrapelib/utils/pixml.py:116-117 | `del d[k]` removes k from the keys and the entries, or is a KeyError that changes nothing |
| PiXmlUtils.WriteOne | lizard_scrapelib/utils/pixml.py:81-117 | one key's series; on success the key is deleted from both dicts, and on an error nothing changes |
| PiXmlUtils.WriteLoop | lizard_scrapelib/utils/pixml.py:80-118 | the series up to the first error are appended to the temporary file, and their keys, only those, are gone from both dicts |
| PiXmlUtils.WriteSeries | lizard_scrapelib/utils/pixml.py:75-118 | the whole loop with the header order of the first headerdict |
| PiXmlUtils.ConsumedStep | lizard_scrapelib/utils/pixml.py:116-117 | deleting the next key keeps "the first n keys are gone, nothing else changed" true for n+1 |
| PiXmlUtils.IndentedLine | lizard_scrapelib/utils/pixml.py:129-138 | a copied line gets two spaces and a line end, without a trailing declaration |
| PiXmlUtils.BeginOfRoot | lizard_scrapelib/utils/pixml.py:128-131 | `begin` is the first root line, the second with "\n", an empty line, and the third with "\n" |
| PiXmlUtils.CopyIndented | lizard_scrapelib/utils/pixml.py:136-138 | the copy loop writes every line of the temporary file indented |
| PiXmlUtils.Create | lizard_scrapelib/utils/pixml.py:42-140 | the dicts lose the processed keys; an error leaves the tmp file; no series and no earlier temporary file means FileNotFound; otherwise the file is begin, copied lines and end, and the tmp file is removed |
| PiXmlUtils.RemoveXmlVersion | lizard_scrapelib/utils/pixml.py:143-152 | the copy writes the first two lines as they are, the third without the declaration and with an extra line end, then every later line without the declaration; a file of fewer than 3 lines ends in StopIteration |
| PiXmlUtils.RemoveXmlVersionLines | lizard_scrapelib/utils/pixml.py:151-152 | a line after the third is copied without a trailing declaration and otherwise unchanged |
| PiXml.OutputSplicesRoot | lizard_scrapelib/pixml.py:125-132 | the output is the serialised root with the temporary file put in place of the line end after its third line |
| PiXml.CopyLines | lizard_scrapelib/pixml.py:129-131 | the lines of the temporary file are copied verbatim |
| PiXml.Create | lizard_scrapelib/pixml.py:40-133 | as the newer create, with the verbatim splice of the temporary file |
| Command.ConfigName | lizard_scrapelib/utils/command.py:23 | the derived name holds no '.' |
| Command.ConfigNameOfModule | lizard_scrapelib/utils/command.py:23 | a dotted module name gives its last component |
| Command.ConfigPathShape | lizard_scrapelib/utils/command.py:24-25 | the path ends with `var/config/{name}_config.json` |
| Command.LookupsSpec | lizard_scrapelib/utils/command.py:47 | the key tuple holds kwargs[x] for each name in order, or is a KeyError iff a name is missing |
| Command.TupleNames | lizard_scrapelib/utils/command.py:47-50 | a key name that is one string is iterated character by character, a list of names name by name |
| Command.DeleteAllSpec | lizard_scrapelib/utils/command.py:49-50 | deleting the names succeeds iff they are distinct and present, and removes exactly them |
| Command.DeleteEach | lizard_scrapelib/utils/command.py:49-50 | the deletion loop computes the specification's result |
| Command.PreparedNamedKey | lizard_scrapelib/utils/command.py:41-51 | a present key name is the key; the dict argument is removed, and the key argument too unless kept |
| Command.PreparedTupleKey | lizard_scrapelib/utils/command.py:46-51 | an absent key name makes the key the tuple of the named arguments |
| Command.PreparedPassesRest | lizard_scrapelib/utils/command.py:44-51 | the function never sees the dict argument, and sees the key arguments iff they are kept |
| Command.DictNameIsKeyName | lizard_scrapelib/utils/command.py:41-51 | when the dict name and the key name coincide and the key is not kept, the second deletion raises KeyError |
| Command.StoreToDict | lizard_scrapelib/utils/command.py:37-56 | the function is always called; its result, even None, is stored under the key and returned; nothing is stored when anything raises |
| Command.RegisteredSpec | lizard_scrapelib/utils/command.py:209-212 | registration succeeds only when every listed name is known, and then adds exactly their flags; an unknown name makes it fail |
| Command.EndAndEndpointClash | lizard_scrapelib/utils/command.py:209-212 | 'end' and 'endpoint' together clash in argparse |
| Command.Register | lizard_scrapelib/utils/command.py:209-212 | the registration loop computes the specification's result |
| Command.CredentialsSpec | lizard_scrapelib/utils/command.py:216-225 | both fields are replaced from `login` iff both are listed and one is falsy; everything else is unchanged |
| Command.BackendSpec | lizard_scrapelib/utils/command.py:227-242 | 'production' keeps the base, 'staging' sets the staging URL, an https:// value is used as given; anything else is a TypeError |
| Command.CodesSpec | lizard_scrapelib/utils/command.py:259-269 | codes is the split of code_types, which joins back to it; a TypeError iff a code is not configured |
| Command.YearConverted | lizard_scrapelib/utils/command.py:270-271 | a listed year given as decimal text becomes that integer |
| Command.EndYearNeverConverted | lizard_scrapelib/utils/command.py:272-273 | as written end_year is never converted, because 'last_year' cannot be registered |
| Command.PostParse | lizard_scrapelib/utils/command.py:216-273 | the steps after parsing leave the namespace and the config as the specification says, up to the first exception |
| Command.Argparser | lizard_scrapelib/utils/command.py:59-275 | a failed registration returns no namespace; otherwise the namespace and config are those of the post-parse rules |
| Gpm.Strfy | lizard_scrapelib/gpm.py:14-20 | the loop builds the specification's concatenation of pieces |
| Gpm.PieceKeepsNumber | lizard_scrapelib/gpm.py:18-19 | each piece ends with the number's text and is left-padded to `length`, never truncated |
| Gpm.NegativePieces | lizard_scrapelib/gpm.py:18-19 | a minus sign counts toward the length: -5 becomes "0-5" and -29 stays "-29" |
| Gpm.StrfyAppend | lizard_scrapelib/gpm.py:17-20 | the pieces are concatenated in argument order |
| Gpm.StrfyLength | lizard_scrapelib/gpm.py:17-20 | numbers in [0, 10^length) give `length` characters each |
| Gpm.StrfyRoundTrip | lizard_scrapelib/gpm.py:17-20 | such numbers can be read back from the digits, piece by piece |
| Gpm.IndexField | lizard_scrapelib/gpm.py:31-32 | the index is the 4-digit within-day minutes of the elapsed time |
| Gpm.NamesAt | lizard_scrapelib/gpm.py:33-37 | one name per suffix, in suffix order |
| Gpm.PositionNames | lizard_scrapelib/gpm.py:27-37 | the names built for one position |
| Gpm.WithSuffixes | lizard_scrapelib/gpm.py:33-37 | the suffix loop appends each suffix to the common prefix |
| Gpm.InstantSteps | lizard_scrapelib/gpm.py:38 | after k steps the position is k times delta seconds after the start |
| Gpm.NamesCount | lizard_scrapelib/gpm.py:26-38 | n positions give n times the number of suffixes names |
| Gpm.StaysInMonthAt | lizard_scrapelib/gpm.py:26 | every position that produced names is in the start's month |
| Gpm.StepWithinNextMonth | lizard_scrapelib/gpm.py:26-38 | a step shorter than 28 days moves at most into the next month |
| Gpm.Filelist | lizard_scrapelib/gpm.py:23-39 | names come from the positions in the start's month only; the returned position is the first step outside it, in the next month |
| Handlers.DropSuffix | lizard_scrapelib/utils/handlers.py:10 | one trailing suffix is removed (`$` also matches before a final newline); other names are unchanged |
| Handlers.DropAppendedSuffix | lizard_scrapelib/utils/handlers.py:10 | removing an appended suffix gives the name back |
| Handlers.Ungzip | lizard_scrapelib/utils/handlers.py:7-15 | the new name lacks one trailing ".gz"; the source is removed iff `remove` |
| Handlers.UngzipRemovesOneSuffix | lizard_scrapelib/utils/handlers.py:10 | "x.gz.gz" becomes "x.gz" |
| Handlers.JoinAll | lizard_scrapelib/utils/handlers.py:25 | one path per listed entry, in order |
| Handlers.Untar | lizard_scrapelib/utils/handlers.py:18-25 | the result is the extract dir joined with each entry, and the tar file is removed |
| Handlers.UntarExtractDir | lizard_scrapelib/utils/handlers.py:20-21 | the extract dir is download_dir joined with the basename minus ".tar" |
| Handlers.UntarPathsNameEntries | lizard_scrapelib/utils/handlers.py:25 | the basename of every result path is its entry |
| ModisEt.PeriodsEnumeration | lizard_scrapelib/modis_et.py:82-84 | 644 periods, year-major: period k is year 2000 + k/46 and day 1 + 8(k mod 46) |
| ModisEt.DirsEnumeration | lizard_scrapelib/modis_et.py:82-84 | directory k is the directory of period k |
| ModisEt.DirNameShape | lizard_scrapelib/modis_et.py:82-83 | the day part has 3 digits denoting the day, and the path starts with the product root and ends with "/" |
| ModisEt.FtpList | lizard_scrapelib/modis_et.py:45-58 | a listing passes; exactly "550 No files found" becomes an empty list; any other error is raised again |
| ModisEt.FirstWith | lizard_scrapelib/modis_et.py:92 | the first index whose name contains the tile code, or none |
| ModisEt.PickTile | lizard_scrapelib/modis_et.py:91-92 | a listed name containing 'h26v06' is found iff one exists; otherwise StopIteration |
| ModisEt.GeotiffPathOfName | lizard_scrapelib/modis_et.py:93-94 | the geotiff path is datadir joined with the name without extension plus "-sd1.tif" |
| ModisEt.DirJobSpec | lizard_scrapelib/modis_et.py:87-94 | a directory's job exists iff the listing succeeds and holds the tile, and then holds the remote path and the geotiff path |
| ModisEt.PlanJobs | lizard_scrapelib/modis_et.py:87-95 | the loop handles directories in order up to the first error, which it raises |
| ModisEt.Remapped | lizard_scrapelib/modis_et.py:25 | no cell is left at -28672; every other value is kept |
| ModisEt.RemapNoData | lizard_scrapelib/modis_et.py:25 | every cell of the band is remapped in place |
| ModisEt.RemapIdempotent | lizard_scrapelib/modis_et.py:25-39 | remapping twice is remapping once; a cell is kept iff it is not -28672 |

## Left out

- The resumable FTP downloader `PyFTPclient`: its source is not part of this model. The downloads in `grab_file`, `grab_recent` and `load_historical_data` are left out with it.
- Network and REST glue is left out: `utils/lizard.py`, `utils/ftp.py`, `download`, `create_timeseries_api` and `load_historical_mekong_data`, and the FTP script body of `gpm.py`. FTP listings and fetched pages are parameters.
- GDAL, OGR, OSR and `subprocess` work is left out: `import_shape.py`, the coordinate transforms and shapefiles of `mrcmekong.py`, the raster I/O of `modis_et.py`, `rasterstats` and `gdal_translate_and_warp`. Only the in-memory nodata remap is modelled, on a two-dimensional array of reals.
- lxml serialisation is out: `etree.tostring` of the root is a parameter (its lines), and serialising a series is a parameter function. XPath evaluation is the table's cell lookup `(row, col) -> Option<Element>`.
- The comment-stripping regex of `mrcmekong.py` (line 584) is left out: its page text is a lookup parameter.
- Floats are abstract: `float()` is a parameter `string -> Option<real>`. NOAA's missing-value test compares the raw integer against -9999. The pixml values carry their `str()` text.
- Left out as library behaviour: argparse's parser itself (only registration and clashes of the listed names are modelled), logging setup (`utils/command.py:244-257`), JSON loading and file I/O.
- The file system in `create` and `remove_xml_version` is modelled through three things: the contents of the temporary file (an `Option`, `None` when it does not exist), the written text, and the error that stops the run.
- `datetime.datetime.now()` is a parameter. In `create` it is a clock per key, because the code calls it once for every series.
- `touch_config` is left out: it calls `read_config()` without its argument, so it always raises.
- `filelist` in `gpm.py` reads the module-level loop variables `year` and `month`, bound by `for year, month in daterange():` (lines 55-67). It also iterates `format`, which is never bound and so is the builtin function. Here the three are the explicit parameters `year`, `month` and `formats`.
- The `gpm.py` script body is left out. It uses names that are never defined: `dt` (line 43), `startyear` (line 46) and `CONFIG` (line 66).
- `load_historical_mekong_data` calls `read_cols` without `start_date`, and is not modelled.
- Mekong.StationNamesTable: states the number of stations, not which 21 of the 27 stations have a flood code.
- `int()` of a float (which Python truncates) is a TypeError here, because the model has no float values.
- PiXmlUtils.HeaderElementsWellFormed: records with missing keys and the TypeErrors lxml raises for non-string attribute values are outside the well-formedness condition and not modelled.
- `strftime('%Y')` of years below 1000 is platform-dependent. The lemmas about dates require 4-digit years where it matters.
- Mekong.ColumnFromRow, Mekong.ReadCols, Gpm.Filelist and Noaa.SuperghcndFiles: dates are not bounded to the years 1..9999 of `datetime`, so three errors at those bounds are not modelled:
  - the OverflowError of `start_date - day` on 0001-01-01;
  - the ValueError of `days_in_month` for December 9999, which the row-skip test in `read_cols` (mrcmekong.py:541) would raise; here the test reads the month length directly. `Mekong.DaysInMonthSpec` states that error for `days_in_month` itself;
  - the OverflowError of stepping past 9999-12-31, in `read_cols` (`start_date += day`), in `gpm.filelist` (`position += delta`) and in the day pairs of `superghcnd_filelist`.
- PyFile.Remove and PiXmlUtils.Undeclared: the declaration pattern of `create` and `remove_xml_version` (utils/pixml.py:129, 144) is matched as a literal string. As a regular expression its `.` in `1.0` matches any character, so a declaration that reads `version='1x0'` instead of `version='1.0'` is removed by Python but kept here.
- `print` calls and log messages have no effect in the model.

## Findings

| source | as written | input that shows it | evidently intended | confidence | as-written member | corrected member |
|---|---|---|---|---|---|---|
| lizard_scrapelib/noaa.py:189-194 | the days of a month come from `Calendar.itermonthdates(year, month)`, which pads to whole weeks, and each date reads the slot of its day of the month | a February 2017 line with a recorded value on day 1: the padded date 2017-03-01 is emitted with February's day-1 value (and 2017-01-30/31 read February's day-30/31 slots) | only the month's own days are read | not executed | Noaa.MisdatedMarchFirstInFile | Noaa.CorrectedFebruaryStaysInFebruary |
| lizard_scrapelib/utils/command.py:272-273 | `end_year` is converted only when `'last_year' in commandline_args`, a name that cannot be registered | any configuration listing `end_year`, with "2015" on the command line: `args.end_year` stays the text "2015" | the guard tests `'end_year'`, as the start-year rule tests `'start_year'` | not executed | Command.EndYearNeverConverted | Command.YearConverted |

The model uses the corrected definitions. `Noaa.ParseDly` reads only the calendar month
(`Noaa.CalendarMonthObservations`). `Command.PostParse` converts `end_year` under its own name.
