# Geosite to sing-box rule-set transcoder: a Dafny model

This project models the in-memory core of a small Go tool. The tool takes a
V2Ray geosite database and rewrites it as sing-box "source" rule sets, one
JSON document per group:

- **Decoded database.** The database is a list of category entries. Each entry
  has a country or service code and a list of domain records. Each record has
  a match type (Plain, Regex, RootDomain or Full), a value and attribute tags.
- **`parse`** regroups the entries into a map from group name to a list of
  classified items `DomainItem(type, value)`:
  - Full becomes type 0, Plain type 1, Regex type 2 and RootDomain type 3.
    Records of any other type give no item.
  - Every entry gives a base group, named by its lower-cased code.
  - Every attribute key found on the entry's records gives a further group,
    named `code@key`.
  - Each list is deduplicated, keeping first occurrences.
  - A group of a later entry replaces an earlier group of the same name.
- **`compile`** splits one group's list into four string lists by type:
  - 0: exact domains;
  - 1: keywords;
  - 2: regular expressions;
  - 3: domain suffixes.
- **`generate`** wraps each group's four lists in a version-3 rule set. That
  rule set holds one rule of the default kind. It is written to
  `geosite-<name>.json`.

The modules follow that structure:

- `Common`:
  - the Option and Result wrappers;
  - first-occurrence deduplication `Uniq`;
  - generic lemmas on joining a sequence of maps (`Overlay`), mapping over a
    sequence (`MapSeq`) and renaming map keys injectively (`Rekey`).
- `Geosite`:
  - the decoded database;
  - the classification of a record (`Classify`, `ClassifyAll`);
  - ASCII lower-casing (`ToLower`).
- `Parse`:
  - the regrouping, as the specification function `ParseSpec`;
  - the loops of `parse` as methods proved equal to it.
- `Groups`: what the regrouping promises about each group and about the
  whole map.
- `Compile`:
  - the loop of `compile` as a method, proved against the filter `Values`;
  - the partition lemmas.
- `RuleSet`: the envelope, and the loop of `generate` proved against
  `Documents`.

Go's map iteration order is unspecified. Where the source ranges over a map
(the attribute buckets in `parse`, the groups in `generate`), the model picks
the next key with `:|`. The methods still meet a deterministic postcondition,
so their result does not depend on the order.

## Model

| member | source | states |
|---|---|---|
| Common.Uniq | main.go:138 | the deduplicated list has no duplicates and is no longer than its input |
| Common.UniqMembers | main.go:138 | an element is in the deduplicated list iff it is in the input |
| Common.UniqOfDistinct | main.go:165 | a list without duplicates is left unchanged by deduplication |
| Common.UniqIdempotent | main.go:165 | deduplicating twice is the same as deduplicating once |
| Common.OverlayKeys | main.go:104-105 | after writing a sequence of group maps in order, a name is present iff some map wrote it |
| Common.OverlayLastWins | main.go:138 | a name holds the value of the last map that wrote it |
| Common.OverlaySource | main.go:165 | every stored value was written by some map |
| Common.OverlaySnoc | main.go:105 | writing one more map on top of the overlay is a map join |
| Common.MapSeqSnoc | main.go:105 | the per-entry group maps of a longer prefix extend those of the shorter prefix by one |
| Common.RekeyAt | main.go:165 | after an injective renaming, a name is present iff it renames a present key, and it holds that key's value |
| Common.RekeyInsert | main.go:165 | renaming commutes with adding one key |
| Common.RekeySingleton | main.go:165 | renaming a one-key map renames its key |
| Geosite.Classify | main.go:115-136 | a record gives an item iff its type is one of the four known ones; the item keeps the value and has a type in 0..3 |
| Geosite.ClassifyAll | main.go:107-137 | the classified list has only types 0..3 and is no longer than the records |
| Geosite.ClassifyAllMembers | main.go:115-136 | an item is in the classified list iff some record classifies to it |
| Geosite.ClassifyAllAppend | main.go:109-137 | classifying a concatenation concatenates the classified lists |
| Geosite.UniqKnownTypes | main.go:138 | deduplication keeps every type in 0..3 |
| Geosite.ClassifyInjective | main.go:115-136 | two recognised records get the same item type iff they have the same match type |
| Geosite.ToLower | main.go:106 | the code keeps its length; every ASCII capital becomes its small letter (code point plus 32) and every other character is unchanged |
| Parse.AppendTo | main.go:112 | defines one append: the record is added at the end of the key's bucket, a missing bucket counting as empty |
| Parse.AddAttributes | main.go:111-113 | defines how one record joins the bucket of each attribute key it carries, in attribute order (its meaning is Groups.AddAttributesMember) |
| Parse.CollectAttributes | main.go:108-113 | defines the buckets of one entry: its records, in order, each added to the buckets of its keys (its meaning is Groups.CollectAttributesKeys and Groups.CollectAttributesMember) |
| Parse.GroupName | main.go:165 | the attribute group name is the code, then `@`, then the key, and both parts can be read back from it |
| Parse.AttributeLists | main.go:140-165 | defines the list of each bucket key: the deduplicated classified list of its records, keyed by attribute key |
| Parse.AttributeGroups | main.go:139-166 | defines the attribute groups the bucket loop stores: the lists of `AttributeLists` renamed to `code@key` (its meaning is Groups.AttributeGroupsAt) |
| Parse.EntryGroups | main.go:106-166 | defines the groups of one entry; its base group, under the lower-cased code, is always present |
| Parse.ParseSpec | main.go:104-168 | defines the regrouping as the overlay of every entry's groups in entry order (its meaning is the Groups lemmas below) |
| Parse.GroupNameInjective | main.go:165 | distinct attribute keys of one code give distinct group names |
| Parse.CollectRecords | main.go:107-137 | the record pass returns the classified list and the attribute buckets of the records |
| Parse.ClassifyBucket | main.go:140-164 | classifying one bucket gives the classified list of its records |
| Parse.StoreAttributeGroups | main.go:139-166 | storing the attribute groups, in any bucket order, adds exactly the group `code@key` of every bucket |
| Parse.ParseEntries | main.go:104-168 | the map-building loop computes ParseSpec, the overlay of each entry's groups in entry order |
| Parse.Parse | main.go:98-169 | a decoding error is returned unchanged; otherwise the result is the regrouping of the decoded entries |
| Parse.ParseSpecSnoc | main.go:105 | regrouping one more entry joins its groups to the earlier result |
| Parse.ParseSpecSingle | main.go:104-168 | regrouping a single entry gives exactly its groups |
| Parse.EntryGroupsStored | main.go:138-166 | storing the base group, then the attribute groups, adds exactly the entry's groups |
| Parse.StoreOneGroup | main.go:165 | storing one more bucket's group extends the stored attribute groups by that key |
| Parse.AttributeGroupsInsert | main.go:165 | adding one attribute key adds exactly its group |
| Groups.AddAttributesMember | main.go:111-113 | a record is appended to the bucket of every key it carries, and to no other |
| Groups.CollectAttributesKeys | main.go:108-113 | a bucket exists iff some record carries its key |
| Groups.CollectAttributesMember | main.go:109-113 | the bucket of a key holds exactly the records that carry it |
| Groups.BucketItems | main.go:140-164 | the classified bucket holds exactly the items of the records carrying the key |
| Groups.AttributeGroupsAt | main.go:139-166 | the attribute groups are named `code@key`, one for each bucket, and each holds its bucket's deduplicated classified list |
| Groups.BaseNameNotAttribute | main.go:138 | an attribute group name never equals its own base group name |
| Groups.BaseGroup | main.go:106-138 | the base group is named by the lower-cased code, has no duplicates and holds exactly the items of the entry's recognised records |
| Groups.AttributeGroup | main.go:139-166 | every carried key gives the group `code@key` (key taken verbatim); it has no duplicates and holds exactly the items of the recognised records carrying the key |
| Groups.AttributeGroupEmpty | main.go:108-113 | an attribute group is empty iff no record carrying its key has a recognised type |
| Groups.FanOut | main.go:110-113 | a recognised record's item is in the base group and in the group of every key it carries |
| Groups.AttributeGroupInBase | main.go:139-165 | every item of an attribute group is also in the base group of the same entry |
| Groups.EntryGroupNames | main.go:106 | an entry's group names are exactly its lower-cased code and `code@key` for each carried key |
| Groups.UnrecognizedClassifiesToNothing | main.go:115-136 | a record of unknown type leaves the classified list unchanged, wherever it sits |
| Groups.UnrecognizedBase | main.go:115-138 | a record of unknown type adds nothing to the base group |
| Groups.WithoutRecord | main.go:142-163 | removing a record of unknown type changes no key's set of classified items |
| Groups.UnrecognizedAttribute | main.go:142-165 | a record of unknown type adds no item to any attribute group; its keys still get a group |
| Groups.ParseNames | main.go:104-105 | a name is in the result iff some entry produces it |
| Groups.LastEntryWins | main.go:138 | a name holds the group of the last entry that produces it; names of other entries are left unchanged |
| Groups.CaseCollision | main.go:106 | of two entries whose codes differ only in case, the second's base group replaces the first's |
| Groups.EntryListsWellFormed | main.go:138 | every list of an entry has types in 0..3 and no duplicates |
| Groups.ParseListsWellFormed | main.go:104-168 | every list of the result has types in 0..3 and no duplicates |
| Compile.Values | main.go:172-182 | defines the list of one type: the values of the items of that type, in input order; it is never longer than the input |
| Compile.Compile | main.go:171-185 | the four lists are the values of the items of type 0, 3, 1 and 2, in input order |
| Compile.ValuesAppend | main.go:172 | filtering a concatenation concatenates the filtered lists |
| Compile.ValuesMembers | main.go:172-182 | a value is in the list of type t iff the item (t, value) is in the input |
| Compile.UnknownTypeIgnored | main.go:173-182 | an item whose type is outside 0..3 goes to no list |
| Compile.ValuesSnoc | main.go:172-182 | one more item appends its value to the list of its own type only |
| Compile.CompileCounts | main.go:171-185 | each value occurs in the list of type t exactly as often as the item (t, value) in the input |
| Compile.CompileLengths | main.go:171-185 | with all types in 0..3, the four lengths add up to the input length |
| RuleSet.RuleOf | main.go:203-204 | defines the default rule of a group: exact domains, suffixes, keywords and regular expressions from the four compiled lists |
| RuleSet.Envelope | main.go:206-214 | defines a group's document: version 3 and a single rule of the default kind |
| RuleSet.FileName | main.go:217 | the file name is `geosite-`, the group name, then `.json`, and the group name can be read back from it |
| RuleSet.FileNameInjective | main.go:217 | the name `geosite-<name>.json` is injective in the group name (before path cleaning) |
| RuleSet.Documents | main.go:202-232 | defines the output: each visited group's name mapped to its document |
| RuleSet.BuildRuleSet | main.go:204-215 | one group becomes a version-3 document with one default rule holding its four compiled lists |
| RuleSet.WriteRuleSets | main.go:203-232 | in any group order, every group gets its document |
| RuleSet.Generate | main.go:187-235 | a decoding error is returned; otherwise every group of the regrouping gets its document |
| RuleSet.GeneratedDocument | main.go:203-215 | every group's document has version 3 and one default rule; its lists partition the group's items, each exactly once |
| RuleSet.DistinctCount | main.go:138 | in a list without duplicates every element occurs once |
| RuleSet.RecordRouting | main.go:115-136 | a Full record becomes an exact domain, a Plain record a keyword, a Regex record a regular expression and a RootDomain record a suffix; other types appear nowhere |
| RuleSet.ListsMayShareValue | main.go:171-185 | a Full and a RootDomain record with the same value put that value in two lists |
| RuleSet.ThreeClassified | main.go:115-136 | the classification of a three-record entry |
| RuleSet.ThreeBuckets | main.go:109-113 | the three-record entry fills one bucket, holding its tagged record |
| RuleSet.ThreeLists | main.go:140-165 | the three-record entry's bucket is classified to the tagged record's item |
| RuleSet.ThreeAttributeGroups | main.go:165 | the three-record entry has the single attribute group `code@key` |
| RuleSet.ThreeGroups | main.go:138-166 | the groups of the three-record entry |
| RuleSet.ThreeRecordEntry | main.go:104-185 | an entry with exact-domain, keyword (tagged) and suffix records gives exactly two groups: the base group and the tagged group; its rule routes each value to its list |
| RuleSet.ThreeValues | main.go:171-185 | the four lists of a three-item group |

## Left out

- Reading the access token from the environment and looking up releases on
  GitHub (main.go:27-48). This is network I/O and environment state.
- Downloading the database and its checksum, and the SHA-256 comparison
  (main.go:50-86). This is network I/O and a foreign hash.
- `proto.Unmarshal` (main.go:99-103). It is a foreign decoder. The model takes
  its outcome as input: `Result<seq<GeoSite>, DecodeError>`. `Parse` models
  the error branch.
- Clearing and creating the output directory, the JSON encoding and the file
  writes, with their errors (main.go:197-202, main.go:217-231). This is
  filesystem I/O and a library encoder.
  - The model returns the documents keyed by group name.
  - `FileName` gives the name the file is built from. `FileNameInjective`
    shows that this name is injective in the group name.
  - The path cleaning of `filepath.Join` and `filepath.Abs` is not modelled.
    A group name holding `/` or `..` can be cleaned to a file that another
    group also writes, or into a directory that does not exist. For example,
    group `a@/../geosite-b` and group `b` both write `geosite-b.json`. Which
    document is kept then depends on the map iteration order. A missing
    directory makes the file creation fail.
  - The log line is not modelled.
- The "already latest" check in `release` and the program entry point
  (main.go:237-267). These depend on network results and the environment.
- Attribute values (boolean or integer) are not kept. The code reads only the
  attribute key.
- ToLower: covers ASCII only. Go's `strings.ToLower` also folds non-ASCII
  letters. Full Unicode case mapping is not modelled.
- Uniq: `common.Uniq` comes from a library and is not part of this model. It
  is modelled as first-occurrence deduplication.
  - `Uniq`, `UniqMembers` and the lemmas built on them rely only on the result
    having no duplicates and keeping the same elements.
  - `UniqOfDistinct` and `UniqIdempotent` rely on the library keeping the
    order of first occurrences: a list without duplicates comes back
    unchanged. So do the exact lists of the worked example (`ThreeLists`,
    `ThreeGroups`, `ThreeRecordEntry`). A deduplication that kept the same
    elements in another order would not meet them.
- The four compiled lists are not disjoint. A value can be in two lists, and
  the code does nothing to prevent it; `ListsMayShareValue` shows a case. The
  model follows the code.
- Go's nil slices (for an empty list) and empty slices are both modelled as
  the empty sequence.
- Concurrency is not modelled. The program has none in this part.
