# Verified models of the algorithmic cores of mandoc

mandoc formats, indexes and searches manual pages. This project models the parts of it
that are algorithms rather than tables, and proves that they do what the rest of the
program relies on. Each part is a group of Dafny modules that follow the C functions
statement by statement; the objects that the C code updates in place are classes here,
and each method is tied to a specification on values about which the theorems are proved.

| part | files | main theorem |
|---|---|---|
| hash table | `probes.dfy`, `ohash.dfy` | over every run, the open-addressing table acts like a finite map, and no probe loop runs forever |
| database | `bytes.dfy`, `dba_write.dfy`, `dba_array.dfy`, `order.dfy`, `layout.dfy`, `dba_pages.dfy`, `dba_macros.dfy`, `sizes.dfy`, `dba.dfy`, `locate.dfy`, `dbm.dfy`, `dba_edit.dfy`, `dba_read.dfy`, `dba_gap.dfy`, `dbm_query.dfy` | writing a database and reading it back keeps all pages that are not deleted and all macro references; the cursors agree with naive scans |
| queries | `search_expr.dfy`, `mansearch.dfy` | the pages found are those that the Boolean expression selects; when the parser keeps the whole expression |
| tables | `tbl_levels.dfy`, `tbl_columns.dfy`, `tbl_maximize.dfy` | every span gets the width it wants, the line is filled exactly, and when the program never gets there |
| equations | `eqn_tree.dfy`, `eqn_state.dfy`, `eqn_words.dfy`, `eqn_parse.dfy`, `eqn_shape.dfy`, `eqn_machine.dfy`, `eqn_read.dfy` | for every sequence of tokens, the tree of boxes stays well linked, and its texts are those of the tokens in order; every equation of the usual form is parsed to its tree |
| directories | `fts.dfy` | the pointer-following walk shows what a recursive traversal shows: exactly the entries below directories that are opened, each at its depth |
| HTML | `html_tags.dfy`, `html_runs.dfy` | whatever is called in whatever order, the output is well nested |
| characters | `utf8.dfy`, `escape.dfy` | exactly the well-formed UTF-8 sequences are accepted, code points survive the way through all three formats, and when the escape scanner aborts |

`options.dfy` holds the datatypes for results that may be missing.

## Model

| member | source | states |
|---|---|---|
| ProbeSequence.WalkCovers | userland/mandoc/compat_ohash.c:260-263 | stepping by an odd stride and wrapping around once reaches every slot of a table of 2^k slots, from any start, in fewer than 2^k steps |
| ProbeSequence.ProbesCoverTable | userland/mandoc/compat_ohash.c:235-263 | with the start and the stride that a lookup takes from a hash value, the first n probes hit every one of the n slots |
| OpenHash.ProbeEnds | userland/mandoc/compat_ohash.c:235-263 | if one slot is NULL, then every probe loop meets a NULL slot, so that it ends |
| OpenHash.NewSizeFits | userland/mandoc/compat_ohash.c:80-90 | whether a rehash grows, shrinks, or keeps the table, the entries that are left fill at most three quarters of it |
| OpenHash.PositionsCount | userland/mandoc/compat_ohash.c:165-185 | from any position on, an enumeration lists as many slots as are neither NULL nor deleted there |
| OpenHash.Ohash.constructor | userland/mandoc/compat_ohash.c:187-206 | a new table is empty and satisfies the invariant that all operations keep |
| OpenHash.Ohash.Lookup | userland/mandoc/compat_ohash.c:272-314 | finds the slot of the entry exactly if the key is in the map, otherwise the slot to insert it; moving the entry found to a deleted slot leaves the map unchanged |
| OpenHash.Ohash.Insert | userland/mandoc/compat_ohash.c:147-163 | the map gets the one new entry, also across a rehash, and the table stays within its load limit |
| OpenHash.Ohash.Remove | userland/mandoc/compat_ohash.c:120-136 | returns what was in the slot and takes just this key from the map, also across a rehash |
| OpenHash.Ohash.Resize | userland/mandoc/compat_ohash.c:72-118 | the map is unchanged and no deleted slot is left |
| OpenHash.Ohash.Entries | userland/mandoc/compat_ohash.c:165-169 | the number of keys of the map |
| OpenHash.Ohash.EnumeratesOnce | userland/mandoc/compat_ohash.c:171-185 | an enumeration shows every entry of the map exactly once |
| OpenHash.Run | userland/mandoc/compat_ohash.c:120-185 | over every sequence of lookups, insertions and removals, each answer is the one that a finite map gives at that time |
| Bytes.IntRoundTrip | userland/mandoc/dba_write.c:121-127 | what is read from four bytes is the number that was written in network byte order |
| Bytes.BigEndian | userland/mandoc/dba_write.c:121-127 | the most significant of the four bytes comes first |
| DbaWrite.Stream.Tell | userland/mandoc/dba_write.c:56-68 | gives the position, and gives up exactly at INT32_MAX |
| DbaWrite.Stream.Align | userland/mandoc/dba_write.c:77-88 | fills up with NUL bytes to the next multiple of four |
| DbaWrite.Stream.Skip | userland/mandoc/dba_write.c:90-104 | leaves zeros for the pointers to be filled in later, and returns where they start |
| DbaArrays.DbaArray.Next | userland/mandoc/dba_array.c:118-128 | an iteration shows the entries that are not deleted, in order, each once |
| DbaArrays.DbaArray.Del | userland/mandoc/dba_array.c:130-137 | only the current entry is marked, and nothing else changes |
| Order.Sort | userland/mandoc/dba_array.c:157-162 | the result is sorted and a permutation; equal elements may change places |
| Order.NamesComparable | userland/mandoc/dba.c:312-322 | the order of names, by descending mask and then by name, is total and transitive |
| Order.LexIsAlphabetical | userland/mandoc/dba.c:325-332 | the order of strings is alphabetical: one is a prefix of the other, or is smaller at the first difference |
| Order.CaseIsAlphabetical | userland/mandoc/dba.c:312-322 | the order of names with the same mask is alphabetical after folding upper case |
| Order.NamesByMask | userland/mandoc/dba.c:312-322 | names come by mask, the larger one first, and then in that order |
| DbaPages.WritePages | userland/mandoc/dba.c:270-310 | appends the layout of the pages that are not deleted, with every back-patched pointer, and gives every page the position of its record; it gives up exactly if the position behind the last string does not fit into 32 bits |
| DbaPages.FieldInOrder | userland/mandoc/dba.c:276-296 | the strings of a field of a page that is written are those it had: sections and architectures in alphabetical order, names by mask and then alphabetically, files as they were |
| DbaMacros.WriteMacro | userland/mandoc/dba.c:431-498 | appends the table of the values that occur in pages not deleted, each with just these pages; values without any page disappear; it gives up exactly if the end of the table does not fit into 32 bits |
| DbaMacros.ValuesInOrder | userland/mandoc/dba.c:448-493 | the values in the table of a macro are just those with a page in the file, in alphabetical order, each once |
| DbaMacros.TabulatesUnique | userland/mandoc/dba.c:448-493 | the contents of a macro determine the table to be written: there is only one |
| DbaMacros.TabulatesExists | userland/mandoc/dba.c:448-460 | for any contents, there is a table |
| DbaFile.WriteMacros | userland/mandoc/dba.c:403-419 | appends all macro tables behind a table of pointers to them; it gives up exactly if their end does not fit into 32 bits |
| DbaFile.Write | userland/mandoc/dba.c:123-149 | the file is exactly the specified layout of live pages and macro tables; the program gives up exactly if, for this database, the position of the closing magic number does not fit into 32 bits |
| Sizes.ListPermuted | userland/mandoc/dba.c:276-296 | sorting the strings of a page does not change their size |
| Sizes.SameEnd | userland/mandoc/dba.c:123-149 | so the size of the file is known before writing it |
| Sizes.EndAligned | userland/mandoc/dba.c:448-493 | the macro tables always end at a multiple of four |
| Locate.FieldAt | userland/mandoc/dba.c:276-309 | the pointer for each field of each page leads to the bytes of that field |
| Locate.ValueAt | userland/mandoc/dba.c:464-493 | the pointers for each macro value lead to its string and to its list of pages |
| Locate.RefAt | userland/mandoc/dba.c:475-483 | a list of pages can be read one by one up to the 0 that ends it |
| Dbm.Open | userland/mandoc/dbm.c:85-125 | succeeds exactly on the files that pass all checks of header, version, size, end marker and table positions, and finds the tables |
| Dbm.OpensExactly | userland/mandoc/dbm_map.c:81-118 | these checks byte by byte: the magic number at both ends, version 1, the position of the end, and 36 tables inside of the file |
| Dbm.WrittenOpens | userland/mandoc/dbm_map.c:81-118 | every written file passes these checks if it is at most INT32_MAX bytes long |
| Dbm.WrittenPage | userland/mandoc/dbm.c:145-167 | the record of each page gives its names, sections, architectures or none, description and files |
| DbaEdit.PageNew | userland/mandoc/dba.c:157-180 | appends just the one page, with its fields, and the page is fit for writing |
| DbaEdit.PageAdd | userland/mandoc/dba.c:187-212 | adds one string unless it is there already; no architecture makes a page machine-independent for good; the page stays fit for writing |
| DbaEdit.AddedOnce | userland/mandoc/dba.c:187-212 | a string already there is not added again; a file name is also taken to be there behind a byte for its format |
| DbaEdit.PageAlias | userland/mandoc/dba.c:217-235 | adds a name or joins its mask to that of the same name |
| DbaEdit.AliasedMasks | userland/mandoc/dba.c:217-235 | the mask of the name gets the new bits in addition to its own, and all other names keep theirs |
| DbaEdit.AliasedApart | userland/mandoc/dba.c:217-235 | no name is ever stored twice, and the name added is there |
| DbaRead.PageIndexInverts | userland/mandoc/dba.c:376-378 | the formula from offset to page number inverts the one used for writing |
| DbaRead.MacroNew | userland/mandoc/dba.c:363-379 | the value gets just the pages of the list, converted from offsets back to the pages of the table |
| DbaRead.MacroAdd | userland/mandoc/dba.c:385-395 | the value gets just the one page more; an empty value changes nothing |
| DbaRead.ReadPages | userland/mandoc/dba_read.c:46-66 | recreates each page just as it was written |
| DbaRead.ReadMacros | userland/mandoc/dba_read.c:67-72 | recreates each macro table with its values and their pages |
| DbaRead.Read | userland/mandoc/dba_read.c:37-74 | succeeds exactly if the file can be opened, and then gives all pages and all tables |
| DbaRead.ContentSurvives | userland/mandoc/dba.c:431-498 | of a macro table, exactly the references to pages not deleted survive, each for the page in the same place |
| DbaRead.WriteAndRead | userland/mandoc/dba_read.c:37-74 | the round trip: with the macro tables ending at a position that the database determines, the file is written exactly if this position is below INT32_MAX, and read back exactly if the file has at most INT32_MAX bytes; then the pages not deleted come back with the same fields up to the sorting of the writer, and the macro tables with the same references |
| DbaRead.FileInOrder | userland/mandoc/dba.c:123-149 | in a file that is written, the strings of all pages and the values of all macros are in order |
| DbaGap.GapExample | userland/mandoc/dba_write.c:56-68 | for example, with a description of 2147483305 bytes, the file is written with 2147483648 bytes, and cannot be read |
| DbaRead.WrittenSearchable | userland/mandoc/dbm.c:85-125 | if every page has a name and a section, what the cursors need holds of the file written |
| DbmQuery.HitsExact | userland/mandoc/dbm.c:232-310 | a search by name, section or description gives exactly the pages with a matching string, ascending, each once |
| DbmQuery.GreatestMask | userland/mandoc/dbm.c:271-309 | the quality returned with a page is the greatest mask of all its names that match |
| DbmQuery.Converse | userland/mandoc/dbm.c:348-480 | a value is listed for a page if and only if the search for just that value gives the page |
| DbmQuery.ExactHits | userland/mandoc/dbm.c:348-391 | an exact search gives the pages of the one value, in the order of the table |
| DbmQuery.ValuesAscend | userland/mandoc/dbm.c:436-480 | the values of a page come in the order of the table, so each comes once |
| DbmQuery.ValuesWithExact | userland/mandoc/dbm.c:436-480 | a value is given exactly if its list has the page |
| DbmQuery.PageQuery.StartByTitle | userland/mandoc/dbm.c:243-269 | a new search has all hits still to come |
| DbmQuery.PageQuery.NextByTitle | userland/mandoc/dbm.c:271-309 | each call gives the next hit that a naive scan would give, although the cursor only moves forward through the strings |
| DbmQuery.PageQuery.NextByArch | userland/mandoc/dbm.c:312-346 | each call gives the next page with a matching architecture; a page without any is never given |
| DbmQuery.PageQuery.Next | userland/mandoc/dbm.c:212-227 | the same for whatever search is under way |
| DbmQuery.MacroQuery.Next | userland/mandoc/dbm.c:348-391 | each call gives the next page of the next matching value |
| DbmQuery.ValueQuery.Next | userland/mandoc/dbm.c:436-480 | each call gives the next value whose list has the page |
| SearchExpr.ConsumesAll | userland/mandoc/mansearch.c:609-660 | for every sequence of arguments, the parser ends behind the last one |
| SearchExpr.NothingLost | userland/mandoc/mansearch.c:609-660 | all operands of an OR end up in the tree if and only if none between two others is empty |
| SearchExpr.WholeExpression | userland/mandoc/mansearch.c:609-737 | the parser makes the whole expression if and only if no OR at any depth has such a gap |
| SearchExpr.TermLost | userland/mandoc/mansearch.c:643-656 | for example, the last term of "x -o -a -o y" is lost |
| SearchExpr.OrMeans | userland/mandoc/mansearch.c:609-660 | an OR selects what one of its operands selects, never more, and not less if there is no gap |
| SearchExpr.PrintedMeans | userland/mandoc/mansearch.c:609-737 | parsing the arguments written for any query, with -i in front of the terms that ignore case, with OR written or left out, and with parentheses only where an OR is inside of an AND, selects just the pages that the query wants |
| SearchExpr.ExprComp | userland/mandoc/mansearch.c:609-660 | the tree of nodes linked in memory is the one of the pure grammar, and as many arguments are used up |
| SearchExpr.ExprAnd | userland/mandoc/mansearch.c:662-716 | the same for sequences of operands |
| SearchExpr.ExprTerm | userland/mandoc/mansearch.c:718-841 | the same for terms, with -i and parentheses |
| ManSearch.MergeTerm | userland/mandoc/mansearch.c:251-308 | adds exactly the pages with a match in one of the columns searched |
| ManSearch.MergeOr | userland/mandoc/mansearch.c:310-318 | adds exactly the union of what the operands select |
| ManSearch.MergeAnd | userland/mandoc/mansearch.c:320-389 | adds exactly the intersection, whichever operand is the smaller one at each step |
| ManSearch.Merge | userland/mandoc/mansearch.c:236-249 | adds exactly the pages that the expression selects, with or without a table given |
| ManSearch.Search | userland/mandoc/mansearch.c:99-163 | from arguments to pages: the result is what the tree of the grammar selects, or nothing exactly if there is no expression |
| ManSearch.TermExact | userland/mandoc/mansearch.c:251-308 | a page is selected by a term exactly if it has a matching entry in one of its columns |
| ManSearch.ColumnExact | userland/mandoc/mansearch.c:264-295 | what the cursor of one column gives are the pages with a matching entry there |
| TblColumns.WidestCell | userland/mandoc/out.c:146-195 | a column is exactly as wide as the most demanding of its cells |
| TblColumns.LargestSpacing | userland/mandoc/out.c:152-174 | the spacing behind a column in use is the largest that any of its cells asks for, and none is set if no cell asks for any |
| TblColumns.AnyFlag | userland/mandoc/out.c:157 | a column is to be equalized or maximized exactly if one of its cells says so, ignored or not |
| TblColumns.LastUsed | userland/mandoc/out.c:152-155 | the columns in use are those up to the last one that a cell covers |
| TblColumns.StartColumnIs | userland/mandoc/out.c:140-231 | what all rows together make of each column before any is widened for a span: the width of its most demanding cell but at least 1, the largest spacing or 3, and its flags |
| TblColumns.WideIs | userland/mandoc/out.c:242-252 | the width compared with what a span wants is that of its columns with the spacings between them |
| TblColumns.InsertArranged | userland/mandoc/out.c:197-211 | no group in the list dominates a later one, wherever the search for the place has started |
| TblColumns.InsertRecords | userland/mandoc/out.c:197-211 | the list has one group for each span, with the width recorded for it |
| TblColumns.LargestWanted | userland/mandoc/out.c:197-211 | the width recorded for a span is the largest that any cell wants for it |
| TblColumns.Calc.NoteSpan | userland/mandoc/out.c:197-211 | entering the span of a cell keeps the list ordered and free of duplicates |
| TblColumns.Calc.AddRow | userland/mandoc/out.c:146-211 | the columns and groups account for all cells of the row, although the search for places goes on where it stopped |
| TblColumns.Calc.Dismiss | userland/mandoc/out.c:239-257 | exactly the groups that are too narrow remain, and want what they lack |
| TblColumns.Calc.Pass | userland/mandoc/out.c:266-318 | a pass does exactly what handling one group after the other does; it reduces the total width missing if a narrowest column is in a remaining group, and otherwise changes nothing |
| TblColumns.Calc.Widen | userland/mandoc/out.c:259-319 | if the loop ends, each span is at least as wide as the widest cell wants; if no column is in two groups, it ends if and only if there are two levels as `TblLevels.Levels` says; for any groups, it ends if they can get all they want |
| TblColumns.Calc.Fit | userland/mandoc/out.c:140-319 | the same from the rows of a table on |
| TblColumns.AmpleTouches | userland/mandoc/out.c:259-319 | if widening all columns of a group past one outside takes all that is wanted, a narrowest column is always in some group |
| TblLevels.LevelsKept | userland/mandoc/out.c:266-318 | one pass keeps the existence of such levels: it is there before the pass if and only if it is there afterwards, or no group is left |
| TblLevels.NoLevels | userland/mandoc/out.c:266-318 | with a pass that changes nothing, there are no such levels |
| TblLevels.LevelsEnd | userland/mandoc/out.c:266-318 | with a pass that satisfies all groups, there are such levels |
| TblLevels.PassEffect | userland/mandoc/out.c:298-318 | in groups without common columns, a pass changes each one as if it was alone |
| TblLevels.GroupEffect | userland/mandoc/out.c:298-318 | a group is satisfied exactly if its narrowest columns can take what it wants, and then all of them get the new width unless it wanted less |
| TblLevels.EnoughNeeded | userland/mandoc/out.c:280-297 | the new width is never more than some group needs, rounded up to whole columns |
| TblLevels.TwoSpansExample | userland/mandoc/out.c:259-319 | for example, the loop never ends for two spans over two columns of width 1 each that want 3 and 10 more |
| TblColumns.StuckExample | userland/mandoc/out.c:259-319 | for columns of widths 1, 5 and 5 and a span over the last two that wants more than 13, the loop never ends |
| TblMaximize.Equalize | userland/mandoc/out.c:328-366 | all columns to equalize get the same width, that of the widest; the rest is unchanged |
| TblMaximize.NotWider | userland/mandoc/out.c:334-338 | the common width is the largest of the columns to equalize |
| TblMaximize.Distribute | userland/mandoc/out.c:369-403 | the widths of the columns to maximize add up to exactly the width available, none is negative, and each is the even share, rounded down or up, also with the quirk for five columns |
| TblMaximize.GivenEvenly | userland/mandoc/out.c:384-402 | even with the quirk, where a later column gives back the unit taken from column 3 or 4, no share differs from another by more than one |
| TblMaximize.EvenShares | userland/mandoc/out.c:391-402 | rounding running totals gives each column the n-th part, rounded down or up |
| TblMaximize.NoOverlap | userland/mandoc/out.c:328-366 | the width counted twice is zero exactly if no column is both maximized and widened by equalizing |
| TblMaximize.Finish | userland/mandoc/out.c:328-403 | the table fills the line exactly, but for the width counted twice |
| TblMaximize.OverlapExample | userland/mandoc/out.c:328-403 | for example, one column with both options leaves the table 4 too narrow |
| EqnTree.RebuiltWords | userland/mandoc/eqn.c:542-562 | what is put below a box on the rightmost spine adds to the end of the texts, and nothing in front of it changes |
| EqnState.AppendedGood | userland/mandoc/eqn.c:515-534 | a new last child keeps links, counts, limits and texts |
| EqnState.GroupedGood | userland/mandoc/eqn.c:542-562 | a new box around the last child keeps them too, and keeps the order of all texts |
| EqnParse.BoxAlloc | userland/mandoc/eqn.c:515-534 | the links of parent, sister and new box are as they should be |
| EqnParse.BoxMakeBinary | userland/mandoc/eqn.c:542-562 | the last child becomes the only child of the new box, in its place |
| EqnParse.BoxMakeList | userland/mandoc/eqn.c:1073-1089 | the same for the list around the pieces of a word, without counting |
| EqnParse.Parser.ReadDiacritic | userland/mandoc/eqn.c:710-757 | an accent goes around the operand in front of it, which is supplied if missing |
| EqnParse.Parser.Nest | userland/mandoc/eqn.c:767-797 | a new box goes into the innermost box that is not full, and becomes the place |
| EqnParse.Parser.ReadScript | userland/mandoc/eqn.c:823-879 | from, to, sub and sup take the last operand of the right box or join the box that has one script already |
| EqnParse.Parser.ReadFraction | userland/mandoc/eqn.c:893-912 | a fraction takes what was read since the innermost list |
| EqnParse.Parser.ReadClose | userland/mandoc/eqn.c:913-958 | closes the innermost brace or fence that can be closed, and nothing if there is none |
| EqnParse.Parser.ReadNext | userland/mandoc/eqn.c:999-1010 | a new row goes into the innermost pile |
| EqnWords.NextCut | userland/mandoc/eqn.c:1051-1071 | the loop finds the end of the next piece of a word |
| EqnWords.PiecesJoin | userland/mandoc/eqn.c:1048-1106 | the pieces of a word join to the word, and none is empty |
| EqnWords.CutIsRun | userland/mandoc/eqn.c:1051-1071 | each piece is a longest run of letters, digits or other characters, but a comma stands alone |
| EqnWords.CutSucceeds | userland/mandoc/eqn.c:1051-1071 | splitting cannot fail if asterisks only ask for the device name |
| EqnParse.Parser.SplitWord | userland/mandoc/eqn.c:1048-1106 | the box of a word is replaced by its pieces, in order and in their fonts, and by a list of them as soon as there is no room for the next one |
| EqnParse.Parser.ReadText | userland/mandoc/eqn.c:1020-1109 | a text goes to the end of all texts, into the innermost box that is not full |
| EqnParse.Parser.Read | userland/mandoc/eqn.c:680-1113 | each token has just its effect on tree and place, adds its text, and keeps the tree well linked and the place on the rightmost spine |
| EqnParse.Parser.Parse | userland/mandoc/eqn.c:659-1114 | over every sequence of tokens: each has its effect in turn, the tree stays well linked, and the texts of all boxes from left to right join to those of the tokens; it stops exactly at a text where the escape scanner aborts |
| EqnMachine.Moves | userland/mandoc/eqn.c:680-1113 | the effect of each token on the linked boxes is that of a function on the values of the boxes from the root to the place |
| EqnRead.ArgumentReads | userland/mandoc/eqn.c:886-998 | an operand, that is a text, braces or fences, a pile, a matrix, an accented operand or a root, becomes one child of the innermost box that is not full |
| EqnRead.ItemReads | userland/mandoc/eqn.c:823-912 | an operand with a script or limit or with two of them, or a fraction, becomes one box with these operands, in this position |
| EqnRead.TwoReads | userland/mandoc/eqn.c:850-860 | sup behind sub, and to behind from, make one box of three operands |
| EqnRead.PileReads | userland/mandoc/eqn.c:986-1010 | the rows of a pile become its children, in order |
| EqnRead.SplitReads | userland/mandoc/eqn.c:1070-1106 | a word that is split behind an operator becomes a list of all its pieces, the first of which is not counted, as the one operand |
| EqnRead.WordReads | userland/mandoc/eqn.c:1090-1106 | in a list, its pieces become boxes next to each other |
| EqnRead.StyleReads | userland/mandoc/eqn.c:762-822 | a font applies to the next text except for function names, and a size to the box around it |
| EqnRead.OneLeaf | userland/mandoc/eqn.c:1035-1064 | function names are roman, quoted texts italic, and words of one piece italic or roman by their first character |
| EqnRead.ReadEquation | userland/mandoc/eqn.c:659-1114 | for every equation written with braces where needed and without limits inside of positions, the tree of boxes is just that of the equation, with all kinds, positions, counts, fonts and texts |
| EqnRead.LimitStays | userland/mandoc/eqn.c:839-849 | a limit belongs to the operand in front of it if and only if no box around the place has a position |
| EqnRead.LimitReads | userland/mandoc/eqn.c:839-862 | for all operands, `y sub { x from a }` is read as `y sub { x } from a`, and the closing brace has no effect |
| EqnRead.ReadMisread | userland/mandoc/eqn.c:659-1114 | the parser makes that tree of it |
| Fts.Stream.constructor | userland/mandoc/compat_fts.c:69-160 | everything that the recursive traversal of the arguments shows is still to come |
| Fts.Stream.Build | userland/mandoc/compat_fts.c:350-501 | the list of entries is made exactly for readable directories that are not empty, and the path is left as fts_read() needs it |
| Fts.Stream.Read | userland/mandoc/compat_fts.c:223-317 | each call shows the next entry of the traversal |
| Fts.Stream.SetSkip | userland/mandoc/compat_fts.c:325-334 | asking to skip a directory does not change what else will be shown |
| Fts.Traverse | userland/mandoc/compat_fts.c:69-317 | repeated calls show exactly the recursive traversal, with the path and level of every entry, cycles and other devices left alone |
| Fts.ShownAtDepth | userland/mandoc/compat_fts.c:389-447 | an entry is shown if and only if names lead to it from an argument through directories that are all opened: not skipped, readable, on the same device if asked for, and not among those above; these names stand behind the argument in its path, and their number is its level up to FTS_MAXLEVEL |
| Fts.PathsKept | userland/mandoc/compat_fts.c:270-317 | every path shown is that of the entry, if and only if no empty directory was given with a slash at its end |
| Fts.RootShown | userland/mandoc/compat_fts.c:270-317 | the same for one argument; the number of entries shown is the same in any case |
| Fts.SlashLost | userland/mandoc/compat_fts.c:484-495 | for example, the empty directory "a/" is left as "a" |
| HtmlTags.HtmlOut.Otag | userland/mandoc/html.c:627-790 | writes just the one start tag, in a paragraph if it is a phrase directly in a section, and pushes what is not ended at once |
| HtmlTags.HtmlOut.EndTag | userland/mandoc/html.c:835-857 | writes the end tag of the innermost open element |
| HtmlTags.HtmlOut.CloseTag | userland/mandoc/html.c:835-866 | a tag with references stays on the stack, closed; without any it is removed with the closed tags above |
| HtmlTags.HtmlOut.CloseUpTo | userland/mandoc/html.c:963-972 | ends all open elements down to the tag, in order, and leaves those below open |
| HtmlTags.HtmlOut.CloseAbove | userland/mandoc/html.c:979-991 | ends all open elements above the tag, but for a paragraph directly above |
| HtmlTags.StopsAbove | userland/mandoc/html.c:979-991 | the walk stops at the tag itself or at the paragraph directly above it |
| HtmlTags.HtmlOut.CloseParagraph | userland/mandoc/html.c:294-310 | ends the phrases on top and the paragraph around them |
| HtmlTags.HtmlOut.OpenFont | userland/mandoc/html.c:260-292 | opens just the elements for a font and notes the outermost one |
| HtmlTags.HtmlOut.PrintText | userland/mandoc/html.c:901-961 | all that is opened for a word is ended again, but for a paragraph |
| HtmlTags.HtmlOut.CloseAll | userland/mandoc/html.c:963-972 | everything open is ended, innermost first, and both indentation counters are zero |
| HtmlRuns.Perform | userland/mandoc/html.c:294-310 | the stack with its closed tags and references, and the output after each call, exactly; it fails exactly if its assertion does |
| HtmlRuns.WritesAsked | userland/mandoc/html.c:627-790 | apart from end tags and paragraphs, a call writes just what it is asked for |
| HtmlRuns.Run | userland/mandoc/html.c:627-991 | for every sequence of calls: each leads to the state it should, the output is well nested in every state and shows what was asked for in order, and a run only stops before a call that the state does not allow; when everything is closed in the end, the output is balanced |
| HtmlRuns.LeftOpen | userland/mandoc/html.c:627-991 | after any call, exactly the elements it has pushed and those below the tags it has closed are open |
| HtmlRuns.StaysIff | userland/mandoc/html.c:835-866 | a call leaves a tag on the stack if and only if no tag without references at or below it is among those it closes |
| HtmlRuns.StaysSince | userland/mandoc/html.c:835-866 | over a whole run, a tag is still on the stack if and only if this was so for all calls since |
| HtmlRuns.ClosesOrAll | userland/mandoc/html.c:963-972 | closing up to a tag leaves what is open below it if it is still on the stack, and otherwise nothing |
| HtmlRuns.ParagraphClosed | userland/mandoc/html.c:294-310 | html_close_paragraph() closes the phrases on top and the paragraph or heading around them, and leaves all that is below open as it was |
| HtmlRuns.FlowFollows | userland/mandoc/html.c:294-310 | in any run, flow content is allowed after it if and only if the first tag that is no phrase had not been closed before, or the innermost element open below that tag does not establish phrasing context |
| HtmlRuns.PhraseLeftExample | userland/mandoc/html.c:294-310 | for example, with a division and a mark closed but referred to in bold text, nothing is closed |
| HtmlRuns.AlwaysWrapped | userland/mandoc/html.c:648-655 | in any run, no phrase is right inside of a section |
| HtmlRuns.DroppedExample | userland/mandoc/html.c:835-866 | for example, closing a tag again that was dropped from the stack ends the division that was opened since |
| Escape.ReadEscape | userland/mandoc/mandoc.c:94-474 | the loops compute the specified type, argument and end of the sequence; the end is in the string and, without an error, behind the start and the argument |
| Escape.NameReadBack | userland/mandoc/mandoc.c:131-239 | the name of a glyph in any of its three forms, and that of a font, is read back as it was written, whatever is around it, with the end right behind it |
| Escape.AbortsExactly | userland/mandoc/mandoc.c:466-467 | the assertion about device names fails if and only if a sequence that is scanned, at any depth, is an asterisk with another argument |
| Escape.NeverAborts | userland/mandoc/mandoc.c:94-474 | it never fails if all asterisks in the string ask for the device name |
| Escape.AbortExample | userland/mandoc/mandoc.c:466-467 | it fails for "\E*x" |
| Escape.UnicodeInRange | userland/mandoc/mandoc.c:447-465 | a Unicode result is in the range that mchars_num2uc() asserts |
| Escape.SurrogatesLeft | userland/mandoc/mandoc.c:447-465 | which surrogates pass the check: those written with lower-case letters |
| Escape.SurrogateExample | userland/mandoc/mandoc.c:453-465 | for example, "\[ud800]" is a Unicode escape for U+D800 |
| Escape.ReadsBack | userland/mandoc/mandoc.c:447-465 | scanning an escape sequence written for a code point gives that code point, whatever is around it |
| Escape.Chain | userland/mandoc/chars.c:473-481 | every scalar value that is not ASCII survives encoding, conversion, scanning and number parsing |
| Utf8.CodeIsScalar | userland/mandoc/preconv.c:42-98 | what is accepted decodes to a scalar value that is not ASCII |
| Utf8.EncodesScalar | userland/mandoc/mandocdb.c:1909-1953 | the encoding of a scalar value is well-formed and decodes to it |
| Utf8.DecodesUnique | userland/mandoc/preconv.c:42-98 | a well-formed sequence is the encoding of the value it decodes to, so there is only one |
| Utf8.HexRoundTrip | userland/mandoc/preconv.c:91-98 | reading the hexadecimal digits gives back the number |
| Utf8.Header | userland/mandoc/preconv.c:45-81 | the first byte is rejected only if no well-formed sequence begins with it |
| Utf8.Decode | userland/mandoc/preconv.c:42-98 | succeeds exactly on the well-formed sequences of section 4 of RFC 3629, and gives their code points |
| Utf8.Encode | userland/mandoc/preconv.c:31-109 | UTF-8 is tried first, then Latin-1, as far as still possible for the file; the escape sequence, the position and the encodings left are exactly the specified ones |

The rows of class methods that change state are proved against functions on values; the
lemmas named next to them say what these functions mean.

## Findings

The code does not meet the following expectations. Each one has a concrete input and, except for
tables with overlapping groups, the exact condition under which the code does meet it.

- **Terms lost by OR.** When an operand between two others of an OR comes out empty,
  all operands behind it are lost: `x -o -a -o y` only searches for x (`SearchExpr.TermLost`).
  Nothing is lost if and only if there is no such gap (`SearchExpr.NothingLost`,
  `SearchExpr.WholeExpression`).
- **Widening columns may never end.** As soon as no remaining group contains a narrowest
  column, another pass changes nothing (`TblColumns.Calc.Pass`). A first row of widths 1, 5
  and 5 and a span over the last two columns that wants more than 13 is enough
  (`TblColumns.StuckExample`), or two spans over two narrow columns each that want 3 and 10 more
  (`TblLevels.TwoSpansExample`). When no column is in two of the groups left after dismissing the
  satisfied ones, the loop ends if and only if there are widths x and y such that no column is in between,
  none outside of all groups is narrower than x, and each group gets all it wants when its
  columns are made y wide, or exactly all it wants when they are made x wide (`TblLevels.Levels`,
  `TblColumns.Calc.Widen`). For groups that overlap, it ends if they are `Ample`.
- **Tables too narrow.** Equalizing a column that is also to be maximized counts its gain as
  width of a column of fixed width, so that the table ends before the margin by just this much
  (`TblMaximize.Finish`, `TblMaximize.OverlapExample`); that is nothing if and only if no such column is
  widened (`TblMaximize.NoOverlap`).
- **Assertion about device names.** `\*x` and `\E*x` reach the assertion that the argument of a device
  escape is `.T` (`Escape.AbortExample`), and so does every string in which a sequence that is scanned
  is an asterisk with another argument, and no other one (`Escape.AbortsExactly`).
- **Surrogates.** The check that keeps surrogates out overlooks those
  with a lower-case letter in the first two digits; `Escape.SurrogatesLeft` says exactly which ones, such as d800 (`Escape.SurrogateExample`).
- **A slash lost.** When an empty directory given as `a/` is left, its path is shown as `a`
  (`Fts.SlashLost`), and that is the only case where a path differs from that of the entry (`Fts.PathsKept`).
- **Files of 2 gigabytes.** The writer gives up by position, the reader by size. A database whose
  macro tables end at 2147483644 is written to a file of 2147483648 bytes that cannot be opened; as the end
  is a multiple of four, this is the only size with this problem (`DbaRead.WriteAndRead`, `DbaGap.GapExample`).
- **Closed tags dropped.** A tag that is closed but kept because of references leaves the stack when a
  tag without references at or below it is closed, and only then (`HtmlRuns.StaysSince`). Closing it again
  afterwards closes everything that is open, and only what is on top of it otherwise (`HtmlRuns.ClosesOrAll`,
  `HtmlRuns.DroppedExample`). The output stays well nested.
- **Phrases left open.** `html_close_paragraph` looks at closed tags as well. When one of them is the first
  that is no phrase, a phrase below it stays open (`HtmlRuns.PhraseLeftExample`); flow content may follow if and
  only if it has not been closed or nothing below is in the way (`HtmlRuns.FlowFollows`).
- **Limits inside of positions.** `from` and `to` leave the innermost box with a position, also from inside of
  braces: `y sub { x from a }` is read as `y sub { x } from a` (`EqnRead.LimitReads`, `EqnRead.ReadMisread`). A limit
  stays with the operand in front of it if and only if there is no such box (`EqnRead.LimitStays`).

## Left out

- OpenHash.Run: up to 3 * 2^28 insertions; the growth to UINT_MAX behind that leaves the powers of two. The hash function and its collisions are arbitrary.
- DbaFile.Write: deletions are part of the input; the caller that marks pages (`dbprune`) and `dba_array_undel`, which does not correct the count of deleted entries, are not modelled. Giving up with err(1) is the result None.
- DbaRead.Read: the contents are only described for files that the writer has written; which files are opened is exact for all.
- DbaRead.ReadMacros: the hash tables are made one by one where the source makes them together.
- DbmQuery.PageQuery.Next: the cursors are static variables in the source; here each cursor function has a class, and MacroQuery and ValueQuery belong to one macro table.
- ManSearch.Merge: the bits kept by an AND are not described, as they depend on which operand was smaller.
- SearchExpr.ExprTerm: splitting a term at its operator, looking up the keys, and compiling regular expressions is an arbitrary function of the word, which may fail.
- TblColumns.Calc.Widen: for groups that overlap, the condition for the loop to end is sufficient only, because what a column gets for one group counts for another one as well or not, depending on their order; it is exact for all others. SIZE_MAX must not be reached, which is demanded of the sum of all widths.
- TblColumns.Calc.Fit: the widths of texts and numbers are inputs; aligning numbers is not modelled.
- TblMaximize.Distribute: floating point is read as exact rational numbers.
- EqnParse.Parser.Parse: the tokens are inputs; reading them, with definitions and delimiters, is not modelled, and the number of children expected is None instead of UINT_MAX. Letters and digits are those of ASCII. The fields of a box other than its links form one record. The text of a box is shortened before the next one is made, not after.
- EqnRead.ReadEquation: operands that have scripts or are fractions themselves stand in braces, and so do words of several pieces in front of operators; fonts and sizes are only read for texts (`EqnRead.StyleReads`). For limits inside of positions, one general form is shown to be misread.
- Fts.Traverse: comparing and sorting entries, following symbolic links, and the buffer for the path growing are not modelled; the list of entries is made from its end.
- HtmlRuns.Run: attributes, indentation and line breaks are not written, and `html_fillmode`, comments, and a font left open when a word begins are not modelled; a run stops where an assertion fails or a null pointer would be used.
- HtmlTags.HtmlOut.PrintText: the text is one event, and the elements in it are not modelled.
- Utf8.Encode: bytes behind the end of the buffer read as zero.
- DbaEdit.PageAlias: the mask is given after `& NAME_MASK`, which is done by the caller here.
- Strings and lists of pages are sequences in a field where the source has pointers and capacities; running out of memory, freeing, and use after freeing are not modelled.
- Files are sequences of bytes: opening, mapping, closing, renaming and compressing them are not modelled.
- The order of elements that `qsort` considers equal is left open.
- The macro parsers, the formatters and the small compatibility functions rest on tables rather than on algorithms.
