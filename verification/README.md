# Insulator 2 back end: a Dafny model

Insulator 2 is a desktop client for Apache Kafka. Its Rust back end does several jobs:

- It keeps the records it consumes in an in-memory SQLite store, with one table per (cluster, topic) pair.
- It turns Avro-encoded record payloads into JSON. The payloads are framed with a magic byte and a schema-registry id.
- It shapes the answers of the Kafka admin API into topic and consumer-group descriptions.
- It opens clusters and their per-topic consumers lazily and shares them afterwards.

This project models those parts as pure Dafny functions over immutable values and proves their properties. The modules are:

| module | models |
|---|---|
| `QueryText`, `StatementShape`, `Text` | `parse_query` and `get_table_name`. This covers placeholder replacement, trimming, the trailing `;`, and the statement texts the store runs. |
| `RecordStore`, `StoreProperties` | `AppStore`. The database is a map from table name to rows. A statement is evaluated as a filter, an `ORDER BY`, and a `LIMIT`/`OFFSET` window with SQLite's rules. |
| `Ints`, `JsonValues`, `AvroValues`, `AvroSchemas`, `Decimals` | Big-endian two's-complement integers, JSON trees, Avro values and schemas, and the decimal text of `rust_decimal`. |
| `AvroJson`, `AvroJsonLaws`, `AvroPayload`, `AvroScenarios` | The schema-directed Avro parser in `lib/parser/avro_parser.rs`: `parse_payload`, `get_schema_id` and `map`. |
| `KafkaAvro` | The older parser in `kafka/consumer/avro_parser.rs`: `parse_record`, `parse_avro`, its `get_schema_id` and its schema-less `map`. |
| `Offsets`, `AdminClient`, `ConsumerGroupAdmin` | `KafkaAdmin` in `lib/admin/client.rs` and `lib/admin/consumer_admin.rs`. |
| `Configuration`, `Clusters`, `AppStates` | `Cluster::new`, `Cluster::get_consumer` and `AppState::get_cluster_by_id`. |

The model treats several things as parameters:

- **Broker and registry answers.** They are inputs or functions: the metadata, the described configurations, the committed offsets, the fetched schema, and the Avro datum decoder.
- **Panics.** In the Avro mappers, a panic is an explicit `Panic` error value. The mappers are `unwrap_or_else(panic!)`, `expect` and `todo!()`. In the store, admin and state code, the conditions under which the source would panic become preconditions.
- **The tie order of `ORDER BY`.** SQLite leaves it unspecified, so it is a `TieBreak` parameter, and every property about sorting holds for all tie orders.

Record pages are ordered by `timestamp desc`. There is no insertion sequence column, so records with equal or missing timestamps come back in an unspecified order.

SQLite compares identifiers without regard to ASCII case. The statements quote a table name with `'[cluster].[topic]'`, which SQLite reads as an identifier, so two topics whose names differ only in ASCII case share one table. The model therefore stores tables under `TableKey`, the table name with ASCII case folded.

## Model

| member | source | states |
|---|---|---|
| QueryText.TableName | src-tauri/src/lib/record_store/app_store.rs:161-163 | The table name is `'[`, the cluster id, `].[`, the topic name and `]'`, with each part at its own position. |
| QueryText.TableNameInjective | src-tauri/src/lib/record_store/app_store.rs:161-163 | Two (cluster, topic) pairs get the same table name exactly when they are the same pair, provided neither cluster id contains `]`. |
| QueryText.TableKeyInjective | src-tauri/src/lib/record_store/app_store.rs:161-163 | Two pairs reach the same table exactly when their cluster ids and their topic names agree up to ASCII case, provided neither cluster id contains `]`. |
| QueryText.SameFoldSameKey | src-tauri/src/lib/record_store/app_store.rs:161-163 | Pairs that agree up to ASCII case reach the same table, with no proviso. |
| QueryText.CaseVariantsShareTable | src-tauri/src/lib/record_store/app_store.rs:161-163 | The topics "orders" and "Orders" of one cluster get different table names but reach the same table. |
| QueryText.TableNameCollision | src-tauri/src/lib/record_store/app_store.rs:161-163 | Without that proviso, the pairs ("a].[b", "c") and ("a", "b].[c") share one table. |
| QueryText.ExpandFillsSlots | src-tauri/src/lib/record_store/app_store.rs:147-150 | Expanding a template of brace-free literals puts the table name in every `{:topic}` and the decimal limit and offset in every `{:limit}` and `{:offset}`. This holds when the names contain no `{`. |
| QueryText.ParseQuery | src-tauri/src/lib/record_store/app_store.rs:139-159 | `parse_query` gives the trimmed, expanded template without its one trailing `;`, and unchanged when it has none. |
| QueryText.ParseStatement | src-tauri/src/lib/record_store/app_store.rs:139-159 | `parse_query` turns a statement template into the statement with its placeholders filled and without a terminating `;`. |
| QueryText.RecordsPageTemplate | src-tauri/src/lib/record_store/app_store.rs:77 | The page shape renders to exactly the template text of `get_records`. |
| QueryText.OffsetsOnlyTemplate | src-tauri/src/lib/record_store/app_store.rs:110 | The count shape renders to exactly the template text of `get_size`. |
| StatementShape.ParseTemplateExact | src-tauri/src/lib/record_store/app_store.rs:84-85 | The store recognises a template as a statement shape exactly when it is that shape's text, so the reading of a template is the inverse of rendering it. |
| StatementShape.TemplateInjective | src-tauri/src/lib/record_store/app_store.rs:84-85 | Distinct statement shapes have distinct template texts. |
| Text.ReplaceAllLeftmost | src-tauri/src/lib/record_store/app_store.rs:147-150 | `str::replace` replaces the leftmost occurrence and continues right after the replacement, so replaced text is never rescanned. |
| Text.IntToString | src-tauri/src/lib/record_store/app_store.rs:149-150 | The decimal text of an `i64` starts with `-` exactly for negative numbers, is otherwise digits, and reads back as the number. |
| Text.TrimKeepsTrimmed | src-tauri/src/lib/record_store/app_store.rs:151 | Text that starts and ends with a visible character is unchanged by `trim`. |
| RecordStore.RecordRoundTrip | src-tauri/src/lib/record_store/app_store.rs:46-63 | A record stored as a row and read back under its own topic is the same record. A row read back keeps every column and takes the query's topic. |
| RecordStore.CreateTopicTable | src-tauri/src/lib/record_store/app_store.rs:26-44 | Creating a table adds exactly the pair's table under its case-folded key, empty, and keeps every other table. It requires that the table does not exist yet, because the source panics otherwise. |
| RecordStore.InsertRecord | src-tauri/src/lib/record_store/app_store.rs:46-63 | Inserting succeeds exactly when a table with the pair's case-folded key exists. It appends the record's row to that table and changes no other table. |
| RecordStore.Clear | src-tauri/src/lib/record_store/app_store.rs:128-137 | Clearing empties the table with the pair's case-folded key and keeps every other table. It requires that the table exists, because the source panics otherwise. |
| RecordStore.Sort | src-tauri/src/lib/record_store/app_store.rs:77 | `ORDER BY` gives a permutation of the rows ordered by the column, with NULL lowest, for any tie order. |
| RecordStore.Filter | src-tauri/src/lib/record_store/app_store.rs:240 | `WHERE c = v` keeps every matching row with its multiplicity and drops every other row. A NULL never matches. |
| RecordStore.Window | src-tauri/src/lib/record_store/app_store.rs:77 | `LIMIT`/`OFFSET` keeps min(limit, rows left after the offset) consecutive rows from position max(0, offset). A negative limit means no limit. |
| RecordStore.GetRecords | src-tauri/src/lib/record_store/app_store.rs:65-80 | `get_records` fails when the table is missing. Every record it returns carries the queried topic, and a non-negative limit bounds the page length. |
| RecordStore.QueryRecords | src-tauri/src/lib/record_store/app_store.rs:82-102 | `query_records` fails when the table is missing and rejects a template that is not a statement shape. Every record carries the queried topic, and a paged statement returns at most the limit. |
| RecordStore.GetSize | src-tauri/src/lib/record_store/app_store.rs:104-113 | `get_size` fails when the table is missing. |
| RecordStore.GetSizeWithQuery | src-tauri/src/lib/record_store/app_store.rs:115-126 | `get_size_with_query` fails when the table is missing, rejects a template that is not a statement shape, and counts at most the limit for a paged statement. |
| StoreProperties.CaseVariantsAreOneTable | src-tauri/src/lib/record_store/app_store.rs:46-63 | When two topic names agree up to ASCII case and the first one's table exists, inserting under the second adds one row to the first one's count, and clearing under the second empties it. |
| StoreProperties.CreateThenInsertVariant | src-tauri/src/lib/record_store/app_store.rs:26-63 | A table created for one topic name accepts an insert under a case variant of that name, and the count under the first name is then 1. |
| StoreProperties.OrdersScenario | src-tauri/src/lib/record_store/app_store.rs:26-63 | Creating the table of "orders" and inserting under "Orders" gives a count of 1 under "orders". |
| StoreProperties.SelectedShape | src-tauri/src/lib/record_store/app_store.rs:82-86 | A query whose template is a statement shape runs that shape on the table with the pair's case-folded key, or fails with "no such table". |
| StoreProperties.GetSizeCounts | src-tauri/src/lib/record_store/app_store.rs:104-126 | `get_size` is the number of rows of the table with the pair's case-folded key, or fails when the table is missing. |
| StoreProperties.SizeAfterInsert | src-tauri/src/lib/record_store/app_store.rs:46-63 | After an insert, the table's size is one more than before. |
| StoreProperties.SizeAfterClear | src-tauri/src/lib/record_store/app_store.rs:128-137 | After a clear, the table's size is 0. |
| StoreProperties.ClearLeavesOtherTables | src-tauri/src/lib/record_store/app_store.rs:128-137 | Clearing one table changes no query or count over a table with a different case-folded key. |
| StoreProperties.InsertLeavesOtherTables | src-tauri/src/lib/record_store/app_store.rs:46-63 | Inserting into one table changes no query or count over a table with a different case-folded key. |
| StoreProperties.GetRecordsPage | src-tauri/src/lib/record_store/app_store.rs:65-80 | `get_records` is the window of the table sorted by timestamp, newest first, read as records of the queried topic. |
| StoreProperties.PageShape | src-tauri/src/lib/record_store/app_store.rs:65-102 | A page has the window's length and descending timestamps. Every record on it is a stored row under the queried topic. A page with no offset and no effective limit is a permutation of the table. |
| StoreProperties.NegativeOffsetIsZero | src-tauri/src/lib/record_store/app_store.rs:65-80 | A negative page offset gives the same page as offset 0. |
| StoreProperties.SizeWithQueryCounts | src-tauri/src/lib/record_store/app_store.rs:115-126 | `get_size_with_query` counts the rows matching the filter, limited by the window when the statement pages. |
| StoreProperties.SizeMatchesRecords | src-tauri/src/lib/record_store/app_store.rs:82-126 | Whenever `query_records` succeeds, `get_size_with_query` on the same query is the number of records it returns. |
| StoreProperties.InsertThenGet | src-tauri/src/lib/record_store/app_store.rs:179-195 | A record inserted into a new table comes back alone from the first page, unchanged when its topic is the queried one. |
| StoreProperties.ThreeInsertsGiveThree | src-tauri/src/lib/record_store/app_store.rs:197-213 | Three inserts into a new table give a size of 3. |
| StoreProperties.FilteredCountScenario | src-tauri/src/lib/record_store/app_store.rs:215-246 | Records at offsets 1, 0 and 0, counted with `WHERE offset = 0` and limit and offset -1, give 2. |
| StoreProperties.UseOffsetScenario | src-tauri/src/lib/record_store/app_store.rs:248-268 | On three rows, the pages (0, 1000), (1, 1) and (3, 1000) hold 3, 1 and 0 records. |
| Ints.SignedRoundTrip | src-tauri/src/lib/parser/avro_parser.rs:60-65 | Encoding a number as big-endian two's complement and reading it back gives the number. |
| Ints.EncodeSignedOfSigned | src-tauri/src/lib/parser/avro_parser.rs:60-65 | Reading bytes as a signed number and encoding it again gives the same bytes. |
| Ints.SignedBounds | src-tauri/src/lib/parser/avro_parser.rs:64 | A signed reading of n bytes is within the n-byte range and is negative exactly when the top bit is set. |
| JsonValues.ObjectOf | src-tauri/src/lib/parser/avro_parser.rs:87-107 | Inserting pairs into a JSON object gives exactly their keys, and each key holds the value of its last pair. |
| AvroPayload.ParsePayload | src-tauri/src/lib/parser/avro_parser.rs:28-57 | A payload without a valid header gets the header error, and a successful parse had a valid header. |
| AvroPayload.SchemaId | src-tauri/src/lib/parser/avro_parser.rs:60-65 | The schema id is the 32-bit signed big-endian number in bytes 1..5. |
| AvroPayload.HeaderRejected | src-tauri/src/lib/parser/avro_parser.rs:29-33 | A payload of at most 5 bytes, or one not starting with 0, is rejected with the header error before the registry or the decoder is consulted. |
| AvroPayload.FrameRoundTrip | src-tauri/src/lib/parser/avro_parser.rs:28-48 | Framing an id and a non-empty datum gives a payload with a valid header, whose id and datum read back unchanged. |
| AvroPayload.HeaderIsFrame | src-tauri/src/lib/parser/avro_parser.rs:28-48 | Every payload with a valid header is the frame of its id and its datum. |
| AvroPayload.FramedPayload | src-tauri/src/lib/parser/avro_parser.rs:35-57 | For a framed payload, a registry failure or a decode failure becomes the parse error with its message. Otherwise the result is the JSON that `map` gives from an empty reference cache, or that map's panic. |
| AvroPayload.SchemaIdVector | src-tauri/src/lib/parser/avro_parser.rs:251-256 | The bytes 00 00 01 86 C5 carry schema id 100037. |
| AvroJson.RegisterRecords | src-tauri/src/lib/parser/avro_parser.rs:143-149 | Registering a union's variants adds exactly the names of its record variants. The last variant with a name wins, and other entries are kept. |
| AvroJson.MapValue | src-tauri/src/lib/parser/avro_parser.rs:67-169 | A successful mapping only extends the reference cache and keeps it well formed, with every name mapped to a schema of that name. |
| AvroJsonLaws.MapsAsExpected | src-tauri/src/lib/parser/avro_parser.rs:67-169 | A value that fits a schema without references maps to the JSON of an independent, cache-free reference translation. |
| AvroJsonLaws.MapsAsExpectedIn | src-tauri/src/lib/parser/avro_parser.rs:67-169 | A value that fits its schema, with every reference resolved by an environment of named schemas, maps from any cache that already binds that environment to the reference translation under the environment. The cache afterwards still binds it. |
| AvroJsonLaws.RecordMapsAsExpectedIn | src-tauri/src/lib/parser/avro_parser.rs:95-108 | A record that fits its schema maps to the reference translation when the cache, with the record registered, binds the environment. |
| AvroJsonLaws.RegisterKeepsBinds | src-tauri/src/lib/parser/avro_parser.rs:143-149 | Registering a union's record variants keeps every binding of an environment the variants agree with. |
| AvroJsonLaws.FloatsMap | src-tauri/src/lib/parser/avro_parser.rs:77-78 | A float or double maps to null exactly when it is NaN or an infinity, as serde_json does, and otherwise to a JSON number with the same bits. The cache is unchanged. |
| AvroJsonLaws.NonFiniteIsNull | src-tauri/src/lib/parser/avro_parser.rs:77-78 | The NaN 0x7fc00000 and the double infinity map to null, and 123.123 and 12.12 map to numbers. |
| JsonValues.FromFloat | src-tauri/src/lib/parser/avro_parser.rs:77-78 | A float becomes null exactly when its exponent bits are all ones, and otherwise a number with the same bits. |
| AvroJsonLaws.MapsIffFits | src-tauri/src/lib/parser/avro_parser.rs:67-169 | For a schema without references, mapping succeeds exactly when the value fits the schema. |
| AvroJsonLaws.ScalarPairs | src-tauri/src/lib/parser/avro_parser.rs:73-116 | Every scalar maps to its JSON counterpart: null, booleans, integers, dates and times, strings, UUIDs, and bytes as arrays of numbers. The cache is unchanged. |
| AvroJsonLaws.MismatchPanics | src-tauri/src/lib/parser/avro_parser.rs:167 | A value of a different kind than its (non-reference) schema panics with "Unexpected value/schema tuple". |
| AvroJsonLaws.ArrayElementwise | src-tauri/src/lib/parser/avro_parser.rs:80-86 | An array maps to an array of the same length whose elements are the mapped elements. |
| AvroJsonLaws.MapKeys | src-tauri/src/lib/parser/avro_parser.rs:87-94 | A map becomes an object with exactly the map's keys. |
| AvroJsonLaws.MapValuesElementwise | src-tauri/src/lib/parser/avro_parser.rs:87-94 | Each key of a mapped map holds the value of the key's last entry, mapped under the value schema. |
| AvroJsonLaws.RecordKeys | src-tauri/src/lib/parser/avro_parser.rs:95-108 | A mapped record is an object with exactly the record's field names. Every field is known to the schema, and the record's name is registered. |
| AvroJsonLaws.UnknownFieldPanics | src-tauri/src/lib/parser/avro_parser.rs:104 | A record with a field the schema does not know fails. |
| AvroJsonLaws.RecordElementwise | src-tauri/src/lib/parser/avro_parser.rs:95-108 | Each field of a mapped record holds its last value, mapped under that field's schema. |
| AvroJsonLaws.UnionSelectsVariant | src-tauri/src/lib/parser/avro_parser.rs:143-151 | A union branch beyond the variants panics with "Missing schema in the union". Otherwise the inner value is mapped under the selected variant, after every record variant is registered. |
| AvroJsonLaws.RefResolves | src-tauri/src/lib/parser/avro_parser.rs:161-166 | A reference to a registered name maps as that name's schema. An unregistered one panics with "Missing Avro schema reference". |
| AvroJsonLaws.DecimalMaps | src-tauri/src/lib/parser/avro_parser.rs:117-132 | A decimal maps exactly when its unscaled value fits an `i64` and its scale is at most 28. Its text then reads back as that value and scale. |
| AvroJsonLaws.NamedTypesRegister | src-tauri/src/lib/parser/avro_parser.rs:152-160 | An enum maps to its symbol and a fixed to its bytes, and either one registers its schema by name. |
| Decimals.DecimalTextRoundTrip | src-tauri/src/lib/parser/avro_parser.rs:127-131 | The text of a decimal reads back as its unscaled value and scale. |
| Decimals.DecimalTextInjective | src-tauri/src/lib/parser/avro_parser.rs:127-131 | Distinct (value, scale) decimals have distinct texts. |
| AvroScenarios.SimpleTypesParsing | src-tauri/src/lib/parser/avro_parser.rs:208-249 | The sample record of null, boolean, int, long, float, double, bytes and string fields maps to the expected JSON object. |
| AvroScenarios.ChainFitsIn | src-tauri/src/lib/parser/avro_parser.rs:143-166 | A chain of list nodes of any length fits the `next` schema under an environment binding the node record, and its reference translation is the nested node JSON. |
| AvroScenarios.ListMaps | src-tauri/src/lib/parser/avro_parser.rs:143-166 | A linked list of any length maps from an empty cache to its nested node JSON. |
| AvroScenarios.RecursiveReference | src-tauri/src/lib/parser/avro_parser.rs:143-166 | A linked list whose `next` is a union of null and a reference to the record itself maps node by node. A bare reference with an empty cache panics. |
| KafkaAvro.OldMap | src-tauri/src/kafka/consumer/avro_parser.rs:78-116 | The schema-less mapping succeeds exactly on values built from null, booleans, ints, longs, strings, unions, maps and records. Every other value panics with "not yet implemented". |
| KafkaAvro.OldPairs | src-tauri/src/kafka/consumer/avro_parser.rs:92-106 | The entries of a map or record map one to one, keeping their keys, exactly when every value is supported. |
| KafkaAvro.OldAgreesWithNew | src-tauri/src/kafka/consumer/avro_parser.rs:78-116 | On supported values that fit a schema, the older mapping gives the newer parser's reference translation. |
| KafkaAvro.OldAgreesWithMapValue | src-tauri/src/kafka/consumer/avro_parser.rs:78-116 | On supported values that fit a schema, the older mapping equals the newer parser's `map` from any cache. |
| KafkaAvro.SchemaIdOf | src-tauri/src/kafka/consumer/avro_parser.rs:70-76 | The older `get_schema_id` always succeeds on a 5-byte header and reads the same 32-bit big-endian id. |
| KafkaAvro.OldSchemaIdVector | src-tauri/src/kafka/consumer/avro_parser.rs:157-162 | The bytes 00 00 01 86 C5 carry schema id 100037. |
| KafkaAvro.ParseAvro | src-tauri/src/kafka/consumer/avro_parser.rs:35-68 | Success implies a valid header and a registry configuration with both a user name and a password. |
| KafkaAvro.OldHeaderRejected | src-tauri/src/kafka/consumer/avro_parser.rs:36-41 | A short payload, or one without the magic byte, gives the "Invalid AVRO byte array received" error, whatever the registry. |
| KafkaAvro.MissingCredentials | src-tauri/src/kafka/consumer/avro_parser.rs:46-54 | A valid payload with a missing user name or password panics on the unwrap. |
| KafkaAvro.OldFramedPayload | src-tauri/src/kafka/consumer/avro_parser.rs:43-65 | Each failure is reported as the source reports it: the registry's error, the schema-parse error, the decode error, or the panic on an unsupported value. Otherwise the result is the older mapping of the datum. |
| KafkaAvro.TimestampOf | src-tauri/src/kafka/consumer/avro_parser.rs:27-31 | A record has a timestamp exactly when the message has one, and it is that timestamp whatever its kind. |
| KafkaAvro.ParseRecord | src-tauri/src/kafka/consumer/avro_parser.rs:16-33 | A parsed record keeps the message's offset, partition and timestamp and its parsed key. A message without a payload always parses, with no value. |
| KafkaAvro.AbsentPayloadNotDecoded | src-tauri/src/kafka/consumer/avro_parser.rs:17-20 | Without a payload the registry and decoder are never consulted. |
| KafkaAvro.PresentPayloadParsed | src-tauri/src/kafka/consumer/avro_parser.rs:17-20 | With a payload, the record parses exactly when the payload does. The value is the parsed payload, and an error is passed on. |
| Offsets.ToRaw | src-tauri/src/lib/admin/consumer_admin.rs:72 | An offset lacks a raw value exactly when it is a negative position or a non-positive tail. A non-negative raw value comes only from that position. |
| AdminClient.MapOffset | src-tauri/src/lib/admin/client.rs:200-209 | A position is reported as itself, the beginning as 0, and every other kind as -1. |
| AdminClient.MapOffsetAgreesWithRaw | src-tauri/src/lib/admin/client.rs:200-209 | The reported offset is non-negative exactly for the beginning and non-negative positions, and it agrees with the raw value on positions. |
| AdminClient.ListTopics | src-tauri/src/lib/admin/client.rs:177-197 | Listing succeeds exactly when the metadata fetch does. It keeps every topic in order, with each partition's id and its counts of in-sync replicas and replicas. |
| AdminClient.RequestedPartitions | src-tauri/src/lib/admin/client.rs:133-139 | Every partition of every listed topic is asked about. |
| AdminClient.PartitionListMembers | src-tauri/src/lib/admin/client.rs:134-139 | The partition list holds exactly the (topic, partition id) pairs of the listed topics. |
| AdminClient.ConfigMap | src-tauri/src/lib/admin/client.rs:67-72 | The configuration map has exactly the entries' names, and each name holds its last entry's value. |
| AdminClient.GetTopicInfo | src-tauri/src/lib/admin/client.rs:61-90 | Topic info succeeds exactly when both calls do and the metadata holds one topic, and then it carries that topic's name and partitions. Each failure is reported as the source reports it, including "Topic not found". |
| AdminClient.TopicConfigurations | src-tauri/src/lib/admin/client.rs:67-72 | The configurations come from the first description only when it succeeded, and are empty otherwise. Later descriptions are ignored. |
| AdminClient.NewTopicFor | src-tauri/src/lib/admin/client.rs:92-98 | The topic request carries the name, the partition count and a fixed replication of `isr`. Its one setting is `cleanup.policy`, "compact" exactly when compacted and "delete" exactly when not. |
| AdminClient.CreateTopic | src-tauri/src/lib/admin/client.rs:92-116 | Creation succeeds exactly when the broker's first answer does. A refusal becomes "Unable to create the topic. <name> <error>", and a failed request is passed on. |
| AdminClient.ReportedOffsets | src-tauri/src/lib/admin/client.rs:146-155 | Every committed offset that is not invalid is reported with its topic, partition and mapped value. |
| AdminClient.ReportedOfOne | src-tauri/src/lib/admin/client.rs:146-155 | One committed offset is dropped when it is invalid and otherwise reported as its mapped value. |
| AdminClient.ReportedOffsetsAppend | src-tauri/src/lib/admin/client.rs:146-155 | Reporting a concatenation of committed offsets is reporting each part and concatenating, so the order is kept. |
| AdminClient.ReportedOnlyValid | src-tauri/src/lib/admin/client.rs:146-155 | Every reported offset comes from a committed offset that is not invalid. |
| AdminClient.ReportedRange | src-tauri/src/lib/admin/client.rs:146-155 | When no committed position is negative, every reported offset is at least -1. |
| AdminClient.GroupState | src-tauri/src/lib/admin/client.rs:166-175 | The state of the one listed group, or the listing's error. |
| AdminClient.ListConsumerGroups | src-tauri/src/lib/admin/client.rs:118-122 | The names of every listed group, in order, or the listing's error. |
| AdminClient.ListedGroupState | src-tauri/src/lib/admin/client.rs:118-122 | A group in the full listing is named in it, and its state is the state a single-group listing of it reports. |
| AdminClient.DescribeConsumerGroup | src-tauri/src/lib/admin/client.rs:124-163 | Describing succeeds exactly when the topic listing and the state lookup do. It reports the group's name, state, and the valid committed offsets of every listed partition. |
| ConsumerGroupAdmin.DeleteFailure | src-tauri/src/lib/admin/consumer_admin.rs:44-46 | The deletion error text is "Unable to delete the group ", the group, ". Error ", the error, at known positions. |
| ConsumerGroupAdmin.DeleteFailureDistinguishes | src-tauri/src/lib/admin/consumer_admin.rs:44-46 | For one group, two deletion texts are equal exactly when the broker errors are. |
| ConsumerGroupAdmin.DeleteConsumerGroup | src-tauri/src/lib/admin/consumer_admin.rs:35-48 | Deletion succeeds exactly when the request and the one answer do. A refusal becomes a Kafka error with the deletion text. |
| ConsumerGroupAdmin.DeleteReportsBrokerError | src-tauri/src/lib/admin/consumer_admin.rs:35-48 | For one group, two refused deletions give equal errors exactly when the broker errors are equal, so the error is passed on. |
| ConsumerGroupAdmin.StoredOffsets | src-tauri/src/lib/admin/consumer_admin.rs:64-74 | One offset is stored per assigned partition, in order, with the same topic and partition. |
| ConsumerGroupAdmin.StoredIsOneBelow | src-tauri/src/lib/admin/consumer_admin.rs:72 | The stored offset is one below the raw assigned offset: a position n stores n - 1, and the beginning stores -3. |
| ConsumerGroupAdmin.SetConsumerGroup | src-tauri/src/lib/admin/consumer_admin.rs:50-77 | The first failing step decides the error, in the order set-up, assignment, commit. Each store must succeed, because the source panics otherwise. Success commits exactly the stored offsets. |
| ConsumerGroupAdmin.RawOffsets | src-tauri/src/lib/admin/consumer_admin.rs:103-112 | Every committed offset that is not invalid is reported with its raw value. |
| ConsumerGroupAdmin.RawOfOne | src-tauri/src/lib/admin/consumer_admin.rs:103-112 | One committed offset is dropped when it is invalid and otherwise reported with its raw value. |
| ConsumerGroupAdmin.RawOffsetsAppend | src-tauri/src/lib/admin/consumer_admin.rs:103-112 | Reporting a concatenation of committed offsets is reporting each part and concatenating, so the order is kept. |
| ConsumerGroupAdmin.RawOnlyValid | src-tauri/src/lib/admin/consumer_admin.rs:103-112 | Every reported offset comes from a committed offset that is not invalid, with its raw value. |
| ConsumerGroupAdmin.NoInvalidReported | src-tauri/src/lib/admin/consumer_admin.rs:106 | No reported offset is the invalid value -1001. |
| ConsumerGroupAdmin.RawAgreesOnPositions | src-tauri/src/lib/admin/consumer_admin.rs:103-112 | On committed offsets that are invalid or non-negative positions, this module and the admin client report the same list. |
| ConsumerGroupAdmin.BeginningReportedDifferently | src-tauri/src/lib/admin/consumer_admin.rs:110 | An offset at the beginning is reported as -2 here but as 0 by the admin client. |
| ConsumerGroupAdmin.DescribeConsumerGroup | src-tauri/src/lib/admin/consumer_admin.rs:85-118 | Describing succeeds exactly when the partition list does. It reports the group's name and the raw valid committed offsets. |
| Clusters.NewCluster | src-tauri/src/lib/cluster.rs:48-69 | A new cluster has a registry client exactly when its configuration has a registry section, built from that section and shared with the parser. It has no consumers. |
| Clusters.GetConsumer | src-tauri/src/lib/cluster.rs:71-85 | Afterwards the topic has a consumer, and the one returned is the stored one. An existing consumer leaves the cluster unchanged. Otherwise exactly one consumer, for the topic, is added, and everything else is kept. |
| Clusters.GetConsumerIdempotent | src-tauri/src/lib/cluster.rs:71-85 | A second request for the same topic returns the same consumer and changes nothing. |
| Clusters.GetConsumerKeepsWf | src-tauri/src/lib/cluster.rs:71-85 | Every consumer stays built from the cluster's configuration for its own topic. |
| Clusters.GetConsumers | src-tauri/src/lib/cluster.rs:71-85 | Requests for several topics add exactly those topics, keep every existing consumer, and keep the cluster well formed. |
| Clusters.OrderIrrelevant | src-tauri/src/lib/cluster.rs:71-85 | From a well-formed cluster, the consumers depend only on the set of topics requested, not on their order or repetition. |
| AppStates.FindConfig | src-tauri/src/api/state.rs:24-28 | The configuration found is the first one with the id, and there is none exactly when no configuration has it. |
| AppStates.GetClusterById | src-tauri/src/api/state.rs:16-35 | Afterwards the id has a cluster, and the one returned is the stored one. An open cluster leaves the state unchanged. Otherwise exactly that id is added, with a new cluster built from its first configuration. |
| AppStates.GetClusterIdempotent | src-tauri/src/api/state.rs:16-35 | A second lookup of the same id returns the same cluster and changes nothing. |
| AppStates.OpenClusterIgnoresConfig | src-tauri/src/api/state.rs:19-23 | Once a cluster is open, the configuration is not consulted, even if reading it would fail. |
| AppStates.GetClusterKeepsWf | src-tauri/src/api/state.rs:16-35 | Every cluster stays stored under its own id with well-formed consumers, and a new one starts with none. |
| AppStates.ConsumerFor | src-tauri/src/api/state.rs:16-35 | A consumer requested through the state is the one stored for the topic in the cluster stored under the id. Other clusters are unchanged. |
| AppStates.ConsumerForKeepsWf | src-tauri/src/lib/cluster.rs:71-85 | Through the state, every consumer handed out belongs to the cluster and the topic requested, and the state stays well formed. |

## Left out

- The SQLite engine is not modelled as a general engine. The store runs only the statement shapes of `StatementShape`: a projection, an optional `column = number` filter, an optional `ORDER BY`, an optional `LIMIT`/`OFFSET` window and an optional `;`. Any other template fails with an "unsupported statement" error instead of being interpreted.
- Error texts of SQLite are not reproduced. A missing table fails with "no such table: <name>".
- SQLite's case folding is modelled for ASCII letters only, which is what SQLite does for identifiers without the ICU extension.
- The row order of ties under `ORDER BY` is a parameter, not SQLite's actual order.
- `get_size_with_query`'s "Unable to get the table size" branch cannot occur in the model, because `count(*)` always yields one row.
- Locks are not modelled: the `FairMutex` around the connection and the mutexes around the consumer and cluster maps. Each call is one atomic step, and the `Arc` sharing of a cluster's consumer map is modelled by storing the updated cluster back into the state.
- Avro binary decoding (`from_avro_datum`), parsing schema text, and the registry's HTTP client are function parameters. So are the text rendering of JSON (`serde_json::to_string`) and the consumer's key parser (`parse_string`).
- AvroPayload.ParsePayload and KafkaAvro.ParseAvro return the JSON tree, not its text. The "Unable to map the avro record to json" error of `serde_json::to_string` cannot occur in the model.
- Floats and doubles are kept as bit patterns. A finite one maps to a JSON number holding the same bits, and NaN and the infinities map to null, as serde_json's conversion does. Their decimal rendering is not modelled.
- Decimals.DecimalText: the text of a decimal is taken to be `rust_decimal`'s display of an `i64` mantissa and a scale: the digits with a point before the last `scale` of them, zero-padded. That library is not part of this model, so its serializer's exact output is not checked.
- The text of a duration follows the debug rendering of the Avro library's months, days and millis. That library is not part of this model, and the exact text is not checked by any property.
- Panic messages of the libraries, such as `unwrap` on `None`, are fixed placeholder texts.
- Offsets.ToRaw: the raw values of `rdkafka::Offset` are librdkafka's: -2 for the beginning, -1 for the end, -1000 stored, -1001 invalid, and tails below -2000. That library is not part of this model.
- The configuration store, `ConfigStore`, is not part of this model. `get_cluster_by_id` receives the result of reading the configuration as a parameter.
- Clusters.GetConsumer does not create the topic's record table, because `TopicStore::from_app_store` is not part of this model. Neither are the consumer's Kafka connection and `KafkaAdmin::new`.
- `KafkaAdmin::new` and the consumers built with `expect` are assumed to succeed.
- `get_all_topic_partition_list` and its cache are not part of this model. Consumer-group describing in `consumer_admin.rs` receives the partition list as an input.
- `setup_consumer` and the assignment it produces are inputs.
- The `list_consumer_groups` of `consumer_admin.rs` (lines 79-83) is identical to that of `client.rs`, and so is its `get_consumer_group_state` (lines 120-128). Both are modelled once, by AdminClient.ListConsumerGroups and AdminClient.GroupState.
- Timeouts and the broker round-trips are not modelled.
- Logging is not modelled.
