# LV::Bin and the AVS parser, modelled in Dafny

This project models two pieces of the libvisual repository and proves properties of them:

1. **The composition bin `LV::Bin`** (`libvisual/libvisual/lv_bin.cpp`). It has:
   - an active actor drawing into the bin's video;
   - an input feeding it;
   - a morph plugin;
   - a pending actor during an actor switch.

   The bin is a class with the same fields as `Bin::Impl` (`lv_bin.dfy`). Videos are small objects with a depth, dimensions, a pitch and an optional pixel buffer (`lv_video.dfy`). Actors, inputs and morphs are opaque objects with:
   - the attributes the bin reads;
   - a ghost reference count.

   Every call the bin makes into plugin code (realize, negotiate, run, the morph setters) is appended to a log of events. Each method's contract gives the new values of the fields it changes, in terms of the state it started from. Two predicates name the outcomes of a frame: `Ended` is the state `switch_finalize` leaves, and `Kept` says that the switch, the depths, the pending actor's video and the morph's references did not change. `Run` states, for every path through `Bin::run`, its log and which of the two holds (`Advanced`). The methods that touch the switch keep the invariant `Valid()`: a switch is in progress exactly while there is a pending actor, and the private and pending videos exist only during one.

2. **The Bison LALR(1) parser of the AVS grammar** (`visscript-hackground/tmp/avs_parser.tab.c`):
   - **Tables** (`avs_tables.dfy`): the parse tables and action decoding, `yytranslate` through `yycheck`, given as functions.
   - **Trip functions** (`avs_parser.dfy`): one trip of the `yyparse` loop as a pure function `Step` on a configuration (stacks, lookahead, `yyerrstatus`, `yynerrs`, `yystacksize`). `Run` iterates it.
   - **Driver** (`avs_driver.dfy`): `yyparse` itself, over arrays and a stack pointer, proved to compute `Run`.
   - **Certificate** (`avs_lr.dfy`): a summary of the LR(0) kernel items, checked against the tables. It shows that a reduction never pops the bottom of the stack and that every goto lands in a state.
   - **Generator** (`avs_tablegen.dfy`): the generator `main`, which re-decodes the tables into an action grid, a goto grid, the `rulegoto`/`rulenr` arrays and a translation table. It is proved to agree with the driver's decoding.

Where the library's documented behaviour and the code differ, the model follows the code:
- `connect` asks for GL only when the actor's depth mask *equals* GL.
- `set_depth` raises `depthchanged` and never clears it; only `depth_changed` clears it.
- `get_palette` picks the morph's palette whenever a switch is in progress, whatever `use_morph` says.
- `switch_finalize` does not release the old actor: its unref is commented out at line 597.
- `switch_actor(VisActor*)` takes no reference on the new actor and releases no earlier pending actor. Only the by-name overload releases the earlier pending actor.

## Model

| member | source | states |
|---|---|---|
| LvVideo.Lowest | libvisual/libvisual/lv_bin.cpp:75 | the lowest depth of a mask is in it, and is NONE exactly for the empty mask |
| LvVideo.LowestIsLeast | libvisual/libvisual/lv_bin.cpp:75 | no depth in the mask has a smaller VisVideoDepth value than Lowest |
| LvVideo.Highest | libvisual/libvisual/lv_bin.cpp:79 | the highest depth of a mask is in it, and is NONE exactly for the empty mask |
| LvVideo.HighestIsGreatest | libvisual/libvisual/lv_bin.cpp:79 | no depth in the mask has a larger value than Highest |
| LvVideo.HighestNoGL | libvisual/libvisual/lv_bin.cpp:88 | never GL; NONE exactly when the mask has no software depth, else a depth of the mask |
| LvVideo.HighestNoGLIsGreatest | libvisual/libvisual/lv_bin.cpp:88 | no software depth of the mask is above HighestNoGL |
| LvVideo.UnsupportingIsEmpty | libvisual/libvisual/lv_bin.cpp:84 | a mask in which no depth is supported is the empty mask, and conversely |
| LvVideo.Bpp | libvisual/libvisual/lv_bin.cpp:500 | bytes per pixel are zero exactly for NONE and GL, and at most 4 |
| LvVideo.Video.CopyAttrs | libvisual/libvisual/lv_bin.cpp:418 | the video takes depth, width, height and pitch of the source and keeps its pixels |
| LvVideo.Video.AllocateBuffer | libvisual/libvisual/lv_bin.cpp:502 | the buffer is pitch times height zero bytes |
| LvBin.SuitableDepth | libvisual/libvisual/lv_bin.cpp:69-89 | the result is a depth of a non-empty mask, and NONE for the empty mask |
| LvBin.SuitableDepthIsPreferredEnd | libvisual/libvisual/lv_bin.cpp:69-89 | for a non-empty mask the result is its least depth when LOWEST is preferred and its greatest when HIGHEST is |
| LvBin.SuitableFallbackOnlyWhenEmpty | libvisual/libvisual/lv_bin.cpp:83-88 | the fallback to the highest software depth happens exactly for the empty mask |
| LvBin.Prepared | libvisual/libvisual/lv_bin.cpp:666-679 | two calls for each of the pending and main actors not yet realized, the main actor counted once when it is the pending one |
| LvBin.Bin.constructor | libvisual/libvisual/lv_bin.cpp:92-110 | nothing connected, no switch, HIGHEST preferred, every depth NONE, a 4 s morph time, an empty log |
| LvBin.Bin.Dispose | libvisual/libvisual/lv_bin.cpp:112-125 | one reference dropped on each of actor, input, morph and pending actor, two when actor and pending actor coincide |
| LvBin.Bin.SetActor | libvisual/libvisual/lv_bin.cpp:127-138 | the new actor is held; the old one loses a reference and the new one gains one, unless they are the same object |
| LvBin.Bin.SetInput | libvisual/libvisual/lv_bin.cpp:140-151 | the same for the input |
| LvBin.Bin.SetMorph | libvisual/libvisual/lv_bin.cpp:186-204 | the old morph loses a reference; a loaded morph that cannot draw the bin's video depth is released and the bin keeps none, any other is kept |
| LvBin.Bin.Connect | libvisual/libvisual/lv_bin.cpp:211-230 | fails exactly when actor or input is null and then changes nothing; otherwise holds both with the references moved, applies set_depth with GL when the mask is GL alone and with the suitable depth otherwise, and leaves depthforcedmain equal to depth |
| LvBin.Bin.ConnectDepth | libvisual/libvisual/lv_bin.cpp:219-225 | no contract of its own; Connect states its effect and SuitableDepthIsPreferredEnd what the suitable depth is |
| LvBin.Bin.ConnectByName | libvisual/libvisual/lv_bin.cpp:232-248 | fails, changing nothing, when either plugin cannot be created; otherwise everything Connect states: both held, the old actor and input one reference down and the new ones one up, set_depth applied to the bin and its video, depthforcedmain equal to depth |
| LvBin.Bin.ConnectByNameReleasing | libvisual/libvisual/lv_bin.cpp:232-248 | corrected: as ConnectByName, but the references creation handed out are dropped, so the new actor and input end with only the bin's reference, and a new actor whose input cannot be created loses its reference |
| LvBin.Bin.SetVideo | libvisual/libvisual/lv_bin.cpp:336-339 | the bin draws into the given video and stays valid |
| LvBin.Bin.SetSupportedDepth | libvisual/libvisual/lv_bin.cpp:341-344 | the depth mask is set |
| LvBin.Bin.SetPreferredDepth | libvisual/libvisual/lv_bin.cpp:351-354 | the preferred end is set |
| LvBin.Bin.SetDepth | libvisual/libvisual/lv_bin.cpp:356-378 | depthold always takes the old depth; an unsupported depth changes nothing else; a supported one becomes the depth and the video's depth, raises depthchanged when it differs without ever clearing it, and sets depthfromGL exactly when the old depth was GL and a change is pending |
| LvBin.Bin.DepthChanged | libvisual/libvisual/lv_bin.cpp:385-393 | returns the flag and clears it |
| LvBin.DepthChangeReportedOnce | libvisual/libvisual/lv_bin.cpp:356-393 | two supported changes raise one report: the first read is true, the second false |
| LvBin.Bin.PaletteOwner | libvisual/libvisual/lv_bin.cpp:395-401 | the morph's palette exactly while a switch is in progress, else the actor's |
| LvBin.Bin.RealizeActor | libvisual/libvisual/lv_bin.cpp:694 | one realize event; a loaded actor is realized afterwards |
| LvBin.Bin.StartPrivate | libvisual/libvisual/lv_bin.cpp:540-578 | a fresh private video with the bin's video's attributes, holding its pixels or zeros, becomes the main actor's video; a loaded morph is pointed at the bin's video with the morph time |
| LvBin.Bin.ClearVideo | libvisual/libvisual/lv_bin.cpp:580-584 | the bin's pixels are zeroed unless the main actor draws GL or there are none |
| LvBin.Bin.SwitchActor | libvisual/libvisual/lv_bin.cpp:519-591 | a null actor changes nothing; otherwise the actor becomes the pending one and a switch is in progress; a private video exists exactly when morphing is on, neither actor draws GL and no change away from GL is pending, and it is a fresh copy of the bin's video holding its pixels (zeros without any) that the main actor draws into, with a loaded morph started; otherwise the main actor keeps its video, the log is unchanged and the bin's pixels are cleared unless that video is GL |
| LvBin.Bin.ForceGLSwitch | libvisual/libvisual/lv_bin.cpp:423-436 | both forced depths and the new video are GL and depthchanged is raised even when the bin cannot take GL; set_depth(GL) applies |
| LvBin.Bin.ForceSoftSwitch | libvisual/libvisual/lv_bin.cpp:440-496 | depthforced is the suitable depth; a deeper bin video with morphing keeps its depth and upgrades the new video; otherwise the bin takes the suitable depth unless its video is GL; the actor is renegotiated when its forced depth differs from the video's |
| LvBin.Bin.SoftSwitch | libvisual/libvisual/lv_bin.cpp:436-503 | ForceSoftSwitch for the suitable depth, then a pitch of width times bytes per pixel and a zeroed buffer |
| LvBin.Bin.NewSwitchVideo | libvisual/libvisual/lv_bin.cpp:417-503 | a fresh video with the bin's video's dimensions, settled by the GL or the software branch |
| LvBin.Bin.AttachAndSwitch | libvisual/libvisual/lv_bin.cpp:509-514 | the new actor draws into the new video, which becomes the pending video, and the switch starts as SwitchActor states (the private video, the main actor's video, the morph start, the cleared pixels), blending under its condition; depths and the new video stay as they were |
| LvBin.Bin.SwitchToNew | libvisual/libvisual/lv_bin.cpp:417-514 | the new actor is pending with a fresh video settled as NewSwitchVideo says, and blending follows the new video's depth; the log is the renegotiation of the software branch followed by the morph start, with the private video, the main actor's video and the bin's pixels as SwitchActor states |
| LvBin.Bin.SwitchActorByName | libvisual/libvisual/lv_bin.cpp:403-517 | corrected order: an actor that cannot be created leaves the bin untouched; otherwise the earlier pending actor loses its reference and the new one is switched to, with all that SwitchToNew states |
| LvBin.Bin.SwitchActorByNameAsWritten | libvisual/libvisual/lv_bin.cpp:403-517 | source order: the earlier pending actor loses its reference first, and stays pending when the new actor cannot be created, with the depths, the log, the videos and the main actor untouched; a created actor is switched to with all that SwitchToNew states |
| LvBin.PendingReleasedTwice | libvisual/libvisual/lv_bin.cpp:408-415 | a failed switch by name followed by destruction drops the pending actor's single reference twice (count -1) |
| LvBin.PendingReleasedOnce | libvisual/libvisual/lv_bin.cpp:408-415 | with the creation checked first the same sequence drops it once (count 0) |
| LvBin.CreationReferencesKept | libvisual/libvisual/lv_bin.cpp:232-248 | as written, an actor and an input created with one reference each, connected by name and then destroyed with the bin, keep that reference (count 1); so does an actor whose input could not be created |
| LvBin.CreationReferencesReleased | libvisual/libvisual/lv_bin.cpp:232-248 | with the creation references dropped, the same sequences leave every plugin with no reference (count 0) |
| LvBin.Bin.FinishSwitch | libvisual/libvisual/lv_bin.cpp:595-622 | the pending actor becomes the actor and draws into the bin's video; no pending actor, pending video, private video or morph is left, and the morph loses its reference; the old actor keeps its reference |
| LvBin.Bin.RenegotiateActor | libvisual/libvisual/lv_bin.cpp:624-639 | the bin's video, the depth and depthforcedmain take the actor's suitable depth through set_depth, and the actor is renegotiated when a change is pending |
| LvBin.Bin.SwitchFinalize | libvisual/libvisual/lv_bin.cpp:593-640 | both of the above: the finalized state with the suitable depth (Ended), and the renegotiation event when depthchanged |
| LvBin.Bin.SyncVideo | libvisual/libvisual/lv_bin.cpp:256-291 | when blending, the morph is pointed at the bin's video and the private video is rebuilt from it (a buffer unless the pending actor draws GL); the main actor's video is the private one, or the bin's one when the pending actor draws GL or nothing blends; null without a private video |
| LvBin.Bin.SyncPending | libvisual/libvisual/lv_bin.cpp:310-331 | the pending video copies the main video's attributes, gets a buffer unless that is GL, and the pending actor is realized and negotiated at depthforced |
| LvBin.Bin.SyncActors | libvisual/libvisual/lv_bin.cpp:293-331 | the main actor takes the video and is negotiated at depthforcedmain (events allowed after GL), then the pending actor as above while morphing |
| LvBin.Bin.Sync | libvisual/libvisual/lv_bin.cpp:250-334 | the exact event log and the main actor's video in every case, ending early without a video; the private video rebuilt as SyncVideo states, the pending video rebuilt from the main actor's video (a buffer unless GL) with the pending actor realized, nothing else changed, and Valid kept |
| LvBin.Bin.UseMorph | libvisual/libvisual/lv_bin.cpp:642-645 | the morph setting is stored |
| LvBin.Bin.SwitchSetTime | libvisual/libvisual/lv_bin.cpp:647-650 | the morph time is stored |
| LvBin.Bin.PrepareSwitch | libvisual/libvisual/lv_bin.cpp:662-682 | ready exactly when both actors have plugins; the unrealized ones are realized and negotiated at depthforced, stopping at the first without a plugin; the new realized flags of both actors |
| LvBin.Bin.RunSwitchStart | libvisual/libvisual/lv_bin.cpp:662-692 | goes on exactly when both actors have plugins, the main one has a video, use_morph is on and that video is not GL; a direct switch ends (Ended) with its log, every other path keeps the switch and the depths (Kept); the new realized flags |
| LvBin.Bin.RunMorph | libvisual/libvisual/lv_bin.cpp:698-724 | blending runs the pending actor, then ends the switch (Ended) without a loaded morph, or runs the morph and ends it exactly when it is done, keeping it (Kept) otherwise; no blending changes nothing |
| LvBin.Bin.RunFrame | libvisual/libvisual/lv_bin.cpp:694-724 | the main actor is realized and run, then RunMorph while switching, with the full log; wherever the switch does not end, the switch and the depths are kept (Kept) |
| LvBin.Bin.RunSwitch | libvisual/libvisual/lv_bin.cpp:660-724 | Advanced: the log of each path (an actor without a plugin, no main-actor video, a direct switch, no blending, a blend without a morph, a morph done or not) and either Ended or Kept |
| LvBin.Bin.Run | libvisual/libvisual/lv_bin.cpp:652-725 | nothing without actor or input; the input runs, then the main actor outside a switch, keeping the switch and the depths; during a switch, RunSwitch's Advanced after the input's event |
| LvBin.MainBin | libvisual/libvisual/lv_bin.cpp:92-110 | a valid bin with a main actor and a video and no switch |
| LvBin.SwitchingBin | libvisual/libvisual/lv_bin.cpp:519-591 | a valid bin switching to a pending actor that holds one reference |
| AvsTables.Translate | visscript-hackground/tmp/avs_parser.tab.c:228-232 | the code is cast to unsigned (modulo 2^32): codes 0..261 index yytranslate, every negative int and every code above 261 is YYUNDEFTOK 2 |
| AvsTables.TranslateNamed | visscript-hackground/tmp/avs_parser.tab.c:51-65 | end of input is $end 0, 256 the error token 1, IDENTIFIER, CONSTANT, FUNCTION and UNARY are 3, 4, 5 and 14, and -1 is undefined |
| AvsTables.TranslateDefined | visscript-hackground/tmp/avs_parser.tab.c:235-264 | an int is translated to a defined token exactly when it is 0, one of the grammar's characters % & ( ) * + , - / ; = and the vertical bar, or 256, or 258..261 |
| AvsTables.DefaultAction | visscript-hackground/tmp/avs_parser.tab.c:989-993 | no contract of its own; DefaultsSound and StepCases state it |
| AvsTables.TableEntry | visscript-hackground/tmp/avs_parser.tab.c:952-955 | no contract of its own; TokenAction uses it |
| AvsTables.TokenAction | visscript-hackground/tmp/avs_parser.tab.c:926-965 | no contract of its own; TableNeverReduces, ShiftFits, ReduceFitsAction, StepCases and DecodeAction state it |
| AvsTables.GotoState | visscript-hackground/tmp/avs_parser.tab.c:1126-1132 | no contract of its own; GotoFits and GotoOf state it |
| AvsTables.ErrorShift | visscript-hackground/tmp/avs_parser.tab.c:1268-1277 | no contract of its own; NoErrorShift and ErrorShiftOf state it |
| AvsTables.NoErrorShift | visscript-hackground/tmp/avs_parser.tab.c:1266-1278 | no state of this grammar shifts the error token |
| AvsTables.TableNeverReduces | visscript-hackground/tmp/avs_parser.tab.c:955-961 | every reduction the parser performs is a default reduction of yydefact |
| AvsLr.PactRows | visscript-hackground/tmp/avs_parser.tab.c:357-365 | the yypact offsets in use |
| AvsLr.RowShiftsSound | visscript-hackground/tmp/avs_parser.tab.c:377-401 | every shift target of a yytable row is a state that may follow each state using the row |
| AvsLr.ShiftFits | visscript-hackground/tmp/avs_parser.tab.c:952-983 | a shift pushes a state other than YYFINAL that may follow the current one |
| AvsLr.ReduceFitsAction | visscript-hackground/tmp/avs_parser.tab.c:989-1001 | every reduction outside YYFINAL is by a real rule whose completed item the state has |
| AvsLr.DefaultsSound | visscript-hackground/tmp/avs_parser.tab.c:989-993 | the same for every default reduction |
| AvsLr.GotoFits | visscript-hackground/tmp/avs_parser.tab.c:1126-1132 | every goto lands on a state other than YYFINAL that may follow the state it leaves |
| AvsParser.Init | visscript-hackground/tmp/avs_parser.tab.c:821-835 | no contract of its own; InitValid states it |
| AvsParser.ReadToken | visscript-hackground/tmp/avs_parser.tab.c:933-937 | no contract of its own; PrepareKeepsStacks and Parser.ReadLookahead state it |
| AvsParser.Lookahead | visscript-hackground/tmp/avs_parser.tab.c:933-943 | no contract of its own; PrepareKeepsStacks states it |
| AvsParser.LookaheadSymbol | visscript-hackground/tmp/avs_parser.tab.c:939-948 | no contract of its own; Translate and TranslateDefined state what it reads |
| AvsParser.Grow | visscript-hackground/tmp/avs_parser.tab.c:846-909 | no contract of its own; PushBounds states it |
| AvsParser.Push | visscript-hackground/tmp/avs_parser.tab.c:840-913 | no contract of its own; PushBounds and PushValid state it |
| AvsParser.ShiftToken | visscript-hackground/tmp/avs_parser.tab.c:967-983 | no contract of its own; ShiftStep and ShiftValid state it |
| AvsParser.PopPush | visscript-hackground/tmp/avs_parser.tab.c:1113-1134 | no contract of its own; PopPushBounds and PopPushValid state it |
| AvsParser.ReduceBy | visscript-hackground/tmp/avs_parser.tab.c:999-1134 | no contract of its own; ReduceBounds and ReduceValid state it |
| AvsParser.Recover | visscript-hackground/tmp/avs_parser.tab.c:1266-1289 | no contract of its own; RecoverTop and RecoverNever state it |
| AvsParser.ErrorRecover | visscript-hackground/tmp/avs_parser.tab.c:1263-1300 | no contract of its own; SyntaxErrorAborts states it |
| AvsParser.SyntaxError | visscript-hackground/tmp/avs_parser.tab.c:1140-1239 | no contract of its own; SyntaxErrorAborts and StepResult state it |
| AvsParser.Prepare | visscript-hackground/tmp/avs_parser.tab.c:926-948 | no contract of its own; PrepareKeepsStacks states it |
| AvsParser.Step | visscript-hackground/tmp/avs_parser.tab.c:918-1300 | no contract of its own; StepCases, StepResult and StepPreservesValid state it |
| AvsParser.ShapedPush | visscript-hackground/tmp/avs_parser.tab.c:844 | pushing a state that may follow keeps the stack well formed |
| AvsParser.ShapedPrefix | visscript-hackground/tmp/avs_parser.tab.c:1113-1114 | every non-empty prefix of a well-formed stack is well formed |
| AvsParser.ShapedReduce | visscript-hackground/tmp/avs_parser.tab.c:1113-1130 | a well-formed stack has room to pop the right-hand side of a fitting rule, and the state below it has the goto |
| AvsParser.ReduceRoom | visscript-hackground/tmp/avs_parser.tab.c:1001-1114 | on a valid configuration every reduction leaves a state below the popped ones |
| AvsParser.RecoverTop | visscript-hackground/tmp/avs_parser.tab.c:1266-1289 | one round of the yyerrlab1 loop: stop at a state that shifts the error token, abort at the bottom, pop otherwise |
| AvsParser.RecoverNever | visscript-hackground/tmp/avs_parser.tab.c:1266-1289 | with these tables the popping loop always reaches the bottom and aborts |
| AvsParser.SyntaxErrorAborts | visscript-hackground/tmp/avs_parser.tab.c:1140-1289 | a syntax error ends the parse with 1, counting the error unless yyerrstatus was set |
| AvsParser.StepCases | visscript-hackground/tmp/avs_parser.tab.c:926-993 | the trip is accept, shift, error or reduce as the decoded action says |
| AvsParser.PrepareKeepsStacks | visscript-hackground/tmp/avs_parser.tab.c:926-948 | reading the lookahead changes no stack and no counter |
| AvsParser.PushValid | visscript-hackground/tmp/avs_parser.tab.c:840-909 | yynewstate keeps a configuration valid when it continues |
| AvsParser.ShiftValid | visscript-hackground/tmp/avs_parser.tab.c:967-983 | a shift keeps a configuration valid |
| AvsParser.ShapedPopPush | visscript-hackground/tmp/avs_parser.tab.c:1113-1134 | replacing the top of a well-formed stack by a state that may follow the remaining top keeps it well formed |
| AvsParser.PopPushValid | visscript-hackground/tmp/avs_parser.tab.c:1113-1134 | popping and pushing a fitting goto keeps the configuration valid |
| AvsParser.ReduceValid | visscript-hackground/tmp/avs_parser.tab.c:999-1134 | a reduction keeps the configuration valid |
| AvsParser.StepPreservesValid | visscript-hackground/tmp/avs_parser.tab.c:918-1300 | every trip that continues leads to a valid configuration: the stacks stay the same height, well formed and below yystacksize |
| AvsParser.Run | visscript-hackground/tmp/avs_parser.tab.c:840-1300 | any number of trips from a valid configuration ends valid when it has not returned |
| AvsParser.InitValid | visscript-hackground/tmp/avs_parser.tab.c:821-835 | the prologue gives a valid configuration |
| AvsParser.PushBounds | visscript-hackground/tmp/avs_parser.tab.c:844-909 | yynewstate pushes one state and one value; full stacks double, capped at 10000, and return 2 at the cap |
| AvsParser.PopPushBounds | visscript-hackground/tmp/avs_parser.tab.c:1113-1119 | popping l entries from both stacks and pushing one keeps them the same height |
| AvsParser.ReduceBounds | visscript-hackground/tmp/avs_parser.tab.c:1001-1132 | a reduction by r pops yyr2[r] states and values, pushes $1 (garbage for an empty rule) and the goto state of yypgoto/yycheck/yydefgoto |
| AvsParser.ReduceStep | visscript-hackground/tmp/avs_parser.tab.c:999-1134 | the same for a whole trip that reduces: the stack below the right-hand side is untouched |
| AvsParser.ShiftStep | visscript-hackground/tmp/avs_parser.tab.c:964-983 | a shift pushes the target (never YYFINAL) and yylval, consumes a lookahead other than end of input, and counts yyerrstatus down |
| AvsParser.StepResult | visscript-hackground/tmp/avs_parser.tab.c:1281-1332 | a trip returns only 0, 1 or 2: 0 exactly on accept, 1 exactly on a syntax error, 2 only at 10000 entries; yynerrs grows only on an error outside recovery |
| AvsParser.StepCalm | visscript-hackground/tmp/avs_parser.tab.c:979-980 | outside recovery a continuing trip stays outside recovery and counts no error |
| AvsParser.StepCalmOutcome | visscript-hackground/tmp/avs_parser.tab.c:1142-1144 | outside recovery a trip returns 0, 1 or 2 with the error counted only for 1 |
| AvsParser.RunHalted | visscript-hackground/tmp/avs_parser.tab.c:1306-1332 | once the parse has returned more trips change nothing |
| AvsParser.RunFirst | visscript-hackground/tmp/avs_parser.tab.c:840-1300 | a run is its first trip followed by the rest |
| AvsParser.RunCalm | visscript-hackground/tmp/avs_parser.tab.c:1142-1144 | from a configuration outside recovery, any run ends with result 0, 1 or 2 and one error counted only for 1 |
| AvsParser.ParseErrorCount | visscript-hackground/tmp/avs_parser.tab.c:821-1332 | yyparse returns with yynerrs 1 exactly when it returns 1, and 0 otherwise |
| AvsDriver.Relocated | visscript-hackground/tmp/avs_parser.tab.c:194-203 | a fresh array of the new size holding the used prefix |
| AvsDriver.DecodeAction | visscript-hackground/tmp/avs_parser.tab.c:926-993 | the driver's decoding is TokenAction |
| AvsDriver.GotoOf | visscript-hackground/tmp/avs_parser.tab.c:1126-1132 | the goto computation is GotoState |
| AvsDriver.ErrorShiftOf | visscript-hackground/tmp/avs_parser.tab.c:1268-1277 | the test of the popping loop is ErrorShift |
| AvsDriver.Parser.constructor | visscript-hackground/tmp/avs_parser.tab.c:821-844 | the fields stand for the initial configuration |
| AvsDriver.Parser.StoreTop | visscript-hackground/tmp/avs_parser.tab.c:844 | one state and one value pushed on the abstract stacks |
| AvsDriver.Parser.GrowIfFull | visscript-hackground/tmp/avs_parser.tab.c:846-909 | the growth check computes Grow |
| AvsDriver.Parser.NewState | visscript-hackground/tmp/avs_parser.tab.c:840-913 | yynewstate computes Push |
| AvsDriver.Parser.ShiftLookahead | visscript-hackground/tmp/avs_parser.tab.c:967-983 | the shift computes ShiftToken |
| AvsDriver.Parser.ReadLookahead | visscript-hackground/tmp/avs_parser.tab.c:926-948 | reading the lookahead computes Prepare |
| AvsDriver.Parser.PopStack | visscript-hackground/tmp/avs_parser.tab.c:1113-1114 | popping n entries drops them from both abstract stacks |
| AvsDriver.Parser.ReduceRule | visscript-hackground/tmp/avs_parser.tab.c:999-1134 | yyreduce computes ReduceBy |
| AvsDriver.Parser.PopToErrorShift | visscript-hackground/tmp/avs_parser.tab.c:1266-1289 | the popping loop computes Recover |
| AvsDriver.Parser.ErrLab1 | visscript-hackground/tmp/avs_parser.tab.c:1263-1300 | yyerrlab1 computes ErrorRecover |
| AvsDriver.Parser.Unwind | visscript-hackground/tmp/avs_parser.tab.c:1218-1226 | the end-of-input loop leaves only the bottom entry; it tests before popping where the source pops first, which agrees on every stack of two or more entries, the only ones this branch can see |
| AvsDriver.Parser.ErrLab | visscript-hackground/tmp/avs_parser.tab.c:1140-1239 | yyerrlab computes SyntaxError |
| AvsDriver.Parser.Trip | visscript-hackground/tmp/avs_parser.tab.c:918-1300 | one trip of the loop computes Step |
| AvsDriver.Parse | visscript-hackground/tmp/avs_parser.tab.c:772-1333 | yyparse, stopped after maxTrips trips, returns exactly the outcome of Run from the initial configuration |
| AvsTablegen.ReductionIsRule | visscript-hackground/tmp/avs_parser.tab.c:1475-1491 | every reduction the decoding yields is by a rule 1..25, so yyr1 and yyr2 are read in range |
| AvsTablegen.DecodeEntry | visscript-hackground/tmp/avs_parser.tab.c:1464-1507 | corrected: the entry for a state and a token is the driver's action, with a = yyr1-YYNTOKENS and l = yyr2 for a reduction, read only after the bounds check |
| AvsTablegen.TraceReadsOutside | visscript-hackground/tmp/avs_parser.tab.c:1465-1468 | as written: the trace reads yycheck[v] below 0 (state 1, token 0) and above YYLAST (state 31, token 18) |
| AvsTablegen.GotoRow | visscript-hackground/tmp/avs_parser.tab.c:1433-1439 | a row of newstate is the driver's goto for every nonterminal, yydefgoto[0] for $accept; other rows are untouched |
| AvsTablegen.DefaultRow | visscript-hackground/tmp/avs_parser.tab.c:1440-1462 | a state that reads no lookahead gets its default action for every token, the first marked Default when it reduces; rulegoto and rulenr hold it from token 1 |
| AvsTablegen.TokenRow | visscript-hackground/tmp/avs_parser.tab.c:1463-1511 | any other state gets the driver's action for each token, written to rulegoto and rulenr |
| AvsTablegen.RulesAdvance | visscript-hackground/tmp/avs_parser.tab.c:1431-1514 | writing one more row extends the rows already filled |
| AvsTablegen.TranslateKinds | visscript-hackground/tmp/avs_parser.tab.c:1517-1521 | the four token kinds are translated and max is 3 |
| AvsTablegen.MaxCode | visscript-hackground/tmp/avs_parser.tab.c:1525 | the running maximum is at least every character code and is one of them or the start |
| AvsTablegen.StoreContents | visscript-hackground/tmp/avs_parser.tab.c:1523-1526 | every punctuation slot holds its YYTRANSLATE and every other slot is unchanged |
| AvsTablegen.TranslatePuncs | visscript-hackground/tmp/avs_parser.tab.c:1523-1526 | the punctuation loop stores YYTRANSLATE of each character, in order, and max is their largest code |
| AvsTablegen.PrintedUpTo | visscript-hackground/tmp/avs_parser.tab.c:1530 | the translation table is printed up to '\|', code 124 |
| AvsTablegen.PuncCodes | visscript-hackground/tmp/avs_parser.tab.c:1422 | every punctuation code lies in 4..255, above the token-kind slots |
| AvsTablegen.FillTranslate | visscript-hackground/tmp/avs_parser.tab.c:1517-1526 | the translation table: token kinds, punctuation, zeros elsewhere, max 124 |
| AvsTablegen.GenerateTables | visscript-hackground/tmp/avs_parser.tab.c:1412-1560 | the action grid is the driver's decoding for every state and token, newstate its gotos, rulegoto/rulenr every row, and the translation table as above |

## Left out

- lv_video (VisVideoDepth and LV::Video) is not part of this model. The depth functions `visual_video_depth_get_lowest/highest/highest_nogl` and `visual_video_bpp_from_depth` are defined by their meaning on a five-bit mask. The library's depth values are used: 1, 2, 4, 8, 16.
- Pixel contents: a buffer is either copied or zeros. `allocate_buffer` always succeeds with zeros, and `visual_mem_copy`/`visual_mem_set` act on the whole buffer.
- Plugin internals (realize, negotiate, run, the morph setters, `visual_input_run`, `visual_morph_is_done`) are events in the log or plain fields (`done`, `hasPlugin`). Their return values and `visual_input_get_audio` are not modelled.
- `visual_log`, `Bin::realize`, and the getters (`get_actor`, `get_input`, `get_morph`, `get_depth`, `get_supported_depth`) are left out. The getters only read one field each.
- `visual_actor_new`, `visual_input_new` and `visual_morph_new` become parameters (`made`, `madeInput`); null stands for a failed creation.
- LvBin.Bin.SetMorph: a null morph from `visual_morph_new` is not modelled; the source would dereference it.
- LvBin.Bin.SetMorph: requires a bin video when the morph has a plugin, because the source dereferences it.
- LvBin.Bin.SwitchActorByName: requires that the new actor is neither the bin's actor nor its pending actor. A freshly created actor never is.
- LvBin.Bin.SwitchActorByNameAsWritten: requires the same of the new actor.
- LvBin.Bin.SwitchActor: requires a main actor with a video and a bin video when the actor is non-null, because the source dereferences them.
- LvBin.Bin.Sync: `visual_actor_set_video` is guarded on a null main actor. A null bin video ends sync early, as the source's null checks do.
- LvBin.Bin.Run: requires a bin video while switching. The guard for a null pending actor while morphing (line 663) is not modelled, because `Valid()` excludes that state.
- LvBin.Bin.Connect: the GL and suitable-depth branches are one `set_depth` call on the chosen depth.
- Reference counts are ghost integers. Freeing an object at zero is not modelled, so a use after free shows only as a negative count.
- The parser's semantic actions (`fprintf` of each rule) and the debug printing are left out. `yylex` stores its token's value through its own local pointer and never writes the global `yylval`, so every value the parser shifts is the untouched `yylval`; values are the one placeholder `Garbage`, and `$$ = $1` is modelled.
- `yylex` and the AVS lexer are replaced by a token sequence.
- `yyoverflow`, the `alloca`/`malloc` choice and a failed stack allocation are left out; relocation always succeeds. The verbose error message (lines 1145-1201) and `yydestruct` are left out.
- AvsParser.Run and AvsDriver.Parse: a parse is run for a bounded number of trips (fuel). Termination of `yyparse` on every input is not proved.
- AvsTablegen.GenerateTables: the generator's stdout output is not modelled. Its grids and arrays are returned instead.

## Findings

| source | as written | input that shows it | evidently intended | confidence | as-written member | corrected member |
|---|---|---|---|---|---|---|
| visscript-hackground/tmp/avs_parser.tab.c:1465-1469 | the trace line reads `yycheck[v]` before testing `v < 0 \|\| v > YYLAST` | state 1 with token 0 (yypact is -14, so v = -14) and state 31 with token 18 (yypact is 63, so v = 81 > YYLAST = 76) | read `yycheck[v]` only after the bounds test | high; not executed | AvsTablegen.TraceReadsOutside | AvsTablegen.DecodeEntry |
| libvisual/libvisual/lv_bin.cpp:408-415 | `switch_actor(name)` releases the pending actor before checking that the new one was created, and keeps pointing at it | a switch to a pending actor that holds one reference, then a name that creates no actor, then the destructor: the reference is dropped twice | release the pending actor only once a new actor exists | medium; not executed | LvBin.PendingReleasedTwice | LvBin.PendingReleasedOnce |
| libvisual/libvisual/lv_bin.cpp:232-248 | `connect(name, name)` never drops the references `visual_actor_new` and `visual_input_new` return, while `connect` takes its own; when the input cannot be created it returns with the new actor still referenced | an actor and an input created with one reference each, connected by name, then the bin destroyed: both keep one reference that nothing holds | drop the creation references once connect holds its own, and the new actor when the input fails | low (rests on the creators handing out an owned reference; lv_actor and lv_input are not part of this model); not executed | LvBin.CreationReferencesKept | LvBin.CreationReferencesReleased |
