/**
 * `set_nb_cells.py`: adds or updates the standard cells at the top of a Jupyter notebook (an
 * install cell, a configuration cell) and an `autolink-concat` directive before its first Markdown
 * cell, unless a Markdown comment in the notebook opts out.
 */
module Notebook {
  import opened Text
  import opened Errors

  datatype CellType = Code | Markdown | Raw

  /** A JSON value in cell metadata. */
  datatype Meta = Flag(on: bool) | Word(text: string) | Words(items: seq<string>) | Object(fields: map<string, Meta>)

  /** A notebook cell. Outputs and execution counts of code cells are not part of the model. */
  datatype Cell = Cell(cellType: CellType, source: string, metadata: map<string, Meta>)

  /** The opt-out comment of the whole script, and the one of the `autolink-concat` cell alone. */
  const NO_SET_NB_CELLS := "<!-- no-set-nb-cells -->"
  const NO_AUTOLINK_CONCAT := "<!-- no autolink-concat -->"

  /** The cell metadata that hides the configuration cell everywhere. */
  const CONFIG_CELL_METADATA: map<string, Meta> := map[
    "hideCode" := Flag(true),
    "hideOutput" := Flag(true),
    "hidePrompt" := Flag(true),
    "jupyter" := Object(map["source_hidden" := Flag(true)]),
    "slideshow" := Object(map["slide_type" := Word("skip")]),
    "tags" := Words(["remove-cell"])]

  /** The install cell's metadata: the configuration cell's, with the tags overridden. */
  const INSTALL_CELL_METADATA: map<string, Meta> := CONFIG_CELL_METADATA["tags" := Words(["remove-cell", "skip-execution"])]

  lemma InstallMetadataOverridesTags()
    ensures INSTALL_CELL_METADATA.Keys == CONFIG_CELL_METADATA.Keys
    ensures forall k :: k in CONFIG_CELL_METADATA && k != "tags" ==> INSTALL_CELL_METADATA[k] == CONFIG_CELL_METADATA[k]
    ensures INSTALL_CELL_METADATA["tags"] == Words(["remove-cell", "skip-execution"])
    ensures INSTALL_CELL_METADATA != CONFIG_CELL_METADATA
  {
    assert CONFIG_CELL_METADATA["tags"] == Words(["remove-cell"]);
    assert ["remove-cell"] != ["remove-cell", "skip-execution"];
  }

  /**
   * The lines of the configuration cell around its `import os` line. The leading character of a long
   * literal is written apart wherever a proof needs it: the verifier reads the characters of a literal
   * from its end, so it cannot see the first one of a long literal.
   */
  const CONFIG_LINES_BEFORE := "%" + "config InlineBackend.figure_formats = ['svg']\n"
  const IMPORT_OS := "import os"
  const DISPLAY_IMPORT := "\n\nfrom IPython.display import display  # noqa: F401"
  const CONFIG_LINES_AFTER := "\n\nSTATIC_WEB_PAGE = {\"EXECUTE_NB\", \"READTHEDOCS\"}.intersection(os.environ)"

  /** `__CONFIG_CELL_CONTENT`, with its framing newlines. */
  const CONFIG_CELL_CONTENT := "\n" + CONFIG_LINES_BEFORE + IMPORT_OS + CONFIG_LINES_AFTER + "\n"

  /**
   * The configuration cell: the `display` import is added after `import os` exactly when the
   * additional packages mention IPython, and the framing newlines are stripped.
   */
  function ConfigCellContent(additionalPackages: string): (r: string)
    ensures Contains(Lower(additionalPackages), "ipython") ==>
      r == CONFIG_LINES_BEFORE + IMPORT_OS + DISPLAY_IMPORT + CONFIG_LINES_AFTER
    ensures !Contains(Lower(additionalPackages), "ipython") ==>
      r == CONFIG_LINES_BEFORE + IMPORT_OS + CONFIG_LINES_AFTER
  {
    var inner :=
      if Contains(Lower(additionalPackages), "ipython") then CONFIG_LINES_BEFORE + IMPORT_OS + DISPLAY_IMPORT + CONFIG_LINES_AFTER
      else CONFIG_LINES_BEFORE + IMPORT_OS + CONFIG_LINES_AFTER;
    assert inner[0] == CONFIG_LINES_BEFORE[0];
    assert inner[|inner| - 1] == CONFIG_LINES_AFTER[|CONFIG_LINES_AFTER| - 1];
    StripFraming(inner, '\n', {'\n'});
    assert ['\n'] + inner + ['\n'] == "\n" + inner + "\n";
    Strip("\n" + inner + "\n", {'\n'})
  }

  /** The two lines of the install cell for package `name`; the leading `#` stands apart as above. */
  function InstallLines(name: string): string {
    "#" + " WARNING: advised to install a specific version, e.g. " + name + "==0.1.2\n%pip install -q " + name
  }

  /**
   * `s.strip()` of every comma-separated entry: the input is cut at each comma into pieces that, joined
   * with commas, give it back, and each name is its piece without surrounding whitespace.
   */
  function PackageNames(additionalPackages: string): (r: seq<string>)
    ensures exists parts: seq<string> ::
      && Join(",", parts) == additionalPackages
      && |parts| == |r|
      && (forall i :: 0 <= i < |parts| ==> ',' !in parts[i] && r[i] == Strip(parts[i], WHITESPACE))
  {
    var parts := Split(additionalPackages, ',');
    SplitJoin(additionalPackages, ',');
    SplitPiecesFree(additionalPackages, ',');
    assert forall i :: 0 <= i < |parts| ==> parts[i] in parts;
    seq(|parts|, i requires 0 <= i < |parts| => Strip(parts[i], WHITESPACE))
  }

  /** No package name holds a comma. */
  lemma PackageNamesCommaFree(additionalPackages: string)
    ensures forall i :: 0 <= i < |PackageNames(additionalPackages)| ==> ',' !in PackageNames(additionalPackages)[i]
  {
    var parts := Split(additionalPackages, ',');
    SplitPiecesFree(additionalPackages, ',');
    forall i | 0 <= i < |parts| ensures ',' !in Strip(parts[i], WHITESPACE) {
      assert parts[i] in parts;
      var left := StripLeft(parts[i], WHITESPACE);
      var r := StripRight(left, WHITESPACE);
      forall j | 0 <= j < |r| ensures r[j] != ',' {
        assert r[j] == left[j];
        assert left[j] == parts[i][|parts[i]| - |left| + j];
      }
    }
  }

  /**
   * The install cell: the install lines with their framing newlines stripped, then `[extras]` when
   * extras are given, then a space and the package names joined by spaces when additional packages
   * are given. Unless the package name ends a line, stripping leaves the install lines whole.
   */
  function InstallCellContent(name: string, extrasRequire: string, additionalPackages: string): (r: string)
    ensures !EndsLine(name) ==>
              r == InstallLines(name)
                   + (if extrasRequire != "" then "[" + Strip(extrasRequire, WHITESPACE) + "]" else "")
                   + (if additionalPackages != "" then " " + Join(" ", PackageNames(additionalPackages)) else "")
  {
    var extras := if extrasRequire != "" then "[" + Strip(extrasRequire, WHITESPACE) + "]" else "";
    var packages := if additionalPackages != "" then " " + Join(" ", PackageNames(additionalPackages)) else "";
    var content := Strip("\n" + InstallLines(name) + "\n", {'\n'}) + extras + packages;
    if EndsLine(name) then content
    else
      FramedInstallLines(name);
      content
  }

  lemma FramedInstallLines(name: string)
    requires !EndsLine(name)
    ensures Strip("\n" + InstallLines(name) + "\n", {'\n'}) == InstallLines(name)
  {
    var head := "#" + " WARNING: advised to install a specific version, e.g. ";
    var mid := "==0.1.2\n%pip install -q ";
    var lines := InstallLines(name);
    assert lines == head + name + mid + name;
    assert lines[0] == head[0];
    if |name| == 0 {
      assert lines[|lines| - 1] == mid[|mid| - 1];
    } else {
      assert lines[|lines| - 1] == name[|name| - 1];
    }
    StripFraming(lines, '\n', {'\n'});
    assert ['\n'] + lines + ['\n'] == "\n" + lines + "\n";
  }

  /** A Markdown cell whose lowercased source contains `statement`. */
  predicate IsMarked(cell: Cell, statement: string) {
    cell.cellType == Markdown && Contains(Lower(cell.source), statement)
  }

  /** The notebook opts out through a Markdown comment `statement`. */
  predicate HasMarker(cells: seq<Cell>, statement: string) {
    exists i :: 0 <= i < |cells| && IsMarked(cells[i], statement)
  }

  /** The position of the first Markdown cell, or `|cells|` when there is none. */
  function FirstMarkdown(cells: seq<Cell>): (i: nat)
    ensures i <= |cells|
    ensures forall j :: 0 <= j < i ==> cells[j].cellType != Markdown
    ensures i < |cells| ==> cells[i].cellType == Markdown
  {
    if |cells| == 0 then 0
    else if cells[0].cellType == Markdown then 0
    else 1 + FirstMarkdown(cells[1..])
  }

  /** The cell `_update_cell` writes: a code cell. */
  function CodeCell(content: string, metadata: map<string, Meta>): Cell {
    Cell(Code, content, metadata)
  }

  /** The `autolink-concat` directive, dedented and stripped. */
  const AUTOLINK_CONCAT := "```{autolink-concat}\n```"
  const AUTOLINK_CELL := Cell(Markdown, AUTOLINK_CONCAT, map[])

  /**
   * The cells after `_update_cell` writes `cell` at `id`: a code cell there is replaced, any other
   * cell gets the new one inserted before it.
   */
  function Updated(cells: seq<Cell>, cell: Cell, id: nat): (r: seq<Cell>)
    requires id < |cells|
    ensures |r| > id && r[id] == cell && r[..id] == cells[..id]
    ensures cells[id].cellType == Code ==> |r| == |cells| && r[id + 1..] == cells[id + 1..]
    ensures cells[id].cellType != Code ==> |r| == |cells| + 1 && r[id + 1..] == cells[id..]
  {
    if cells[id].cellType == Code then cells[id := cell] else cells[..id] + [cell] + cells[id..]
  }

  /** The notebook after one `_update_cell`, and the exception that escapes it. */
  datatype Outcome = Outcome(cells: seq<Cell>, error: Option<string>)

  const INDEX_ERROR := "IndexError: list index out of range"

  /**
   * `_update_cell`: nothing happens in a notebook that opts out; otherwise the cell at `id` must
   * exist, and is replaced or has the new code cell inserted before it.
   */
  function UpdateOutcome(cells: seq<Cell>, content: string, metadata: map<string, Meta>, id: nat): (r: Outcome)
    ensures HasMarker(cells, NO_SET_NB_CELLS) ==> r == Outcome(cells, None)
    ensures r.error.Some? <==> !HasMarker(cells, NO_SET_NB_CELLS) && id >= |cells|
    ensures r.error.Some? ==> r.cells == cells && r.error == Some(INDEX_ERROR)
    ensures !HasMarker(cells, NO_SET_NB_CELLS) && id < |cells| ==>
      |r.cells| > id && r.cells[id] == CodeCell(content, metadata) && r.cells[..id] == cells[..id]
  {
    if HasMarker(cells, NO_SET_NB_CELLS) then Outcome(cells, None)
    else if id >= |cells| then Outcome(cells, Some(INDEX_ERROR))
    else Outcome(Updated(cells, CodeCell(content, metadata), id), None)
  }

  /**
   * `_insert_autolink_concat` without the opt-out: only the first Markdown cell matters. When it
   * already holds the directive, or there is none, nothing changes; otherwise the directive cell is
   * inserted before it and becomes the first Markdown cell.
   */
  function WithAutolink(cells: seq<Cell>): (r: seq<Cell>)
    ensures FirstMarkdown(cells) == |cells| ==> r == cells
    ensures FirstMarkdown(cells) < |cells| ==>
      && FirstMarkdown(r) == FirstMarkdown(cells) < |r|
      && r[FirstMarkdown(r)].source == AUTOLINK_CONCAT
    ensures r == cells || (|r| == |cells| + 1 && r[..FirstMarkdown(cells)] == cells[..FirstMarkdown(cells)]
                           && r[FirstMarkdown(cells)] == AUTOLINK_CELL && r[FirstMarkdown(cells) + 1..] == cells[FirstMarkdown(cells)..])
  {
    var i := FirstMarkdown(cells);
    if i == |cells| || cells[i].source == AUTOLINK_CONCAT then cells
    else
      var r := cells[..i] + [AUTOLINK_CELL] + cells[i..];
      FirstMarkdownAt(r, i);
      r
  }

  /** A Markdown cell preceded only by other cells is the first Markdown cell. */
  lemma {:induction false} FirstMarkdownAt(cells: seq<Cell>, i: nat)
    requires i < |cells| && cells[i].cellType == Markdown
    requires forall j :: 0 <= j < i ==> cells[j].cellType != Markdown
    ensures FirstMarkdown(cells) == i
  {
    if i > 0 {
      assert forall j :: 0 <= j < i - 1 ==> cells[1..][j] == cells[j + 1];
      FirstMarkdownAt(cells[1..], i - 1);
    }
  }

  /** `_insert_autolink_concat`, with the opt-out. */
  function AutolinkOutcome(cells: seq<Cell>): seq<Cell> {
    if HasMarker(cells, NO_AUTOLINK_CONCAT) then cells else WithAutolink(cells)
  }

  /** Inserting the directive a second time changes nothing. */
  lemma WithAutolinkIdempotent(cells: seq<Cell>)
    ensures WithAutolink(WithAutolink(cells)) == WithAutolink(cells)
  {
  }

  /** Neither opt-out comment occurs in the directive cell. */
  lemma AutolinkCellUnmarked(statement: string)
    requires statement == NO_SET_NB_CELLS || statement == NO_AUTOLINK_CONCAT
    ensures !IsMarked(AUTOLINK_CELL, statement)
  {
    var lowered := Lower(AUTOLINK_CONCAT);
    assert |lowered| == 24 <= |statement|;
    if |statement| == 24 {
      assert lowered[..|statement|][0] == '`' != statement[0];
    }
  }

  /** Writing a code cell changes no Markdown cell, so whether the notebook opts out stays as it was. */
  lemma UpdatedKeepsMarker(cells: seq<Cell>, cell: Cell, id: nat, statement: string)
    requires id < |cells| && cell.cellType == Code
    ensures HasMarker(Updated(cells, cell, id), statement) <==> HasMarker(cells, statement)
  {
    var r := Updated(cells, cell, id);
    if HasMarker(cells, statement) {
      var i :| 0 <= i < |cells| && IsMarked(cells[i], statement);
      if i < id {
        assert r[i] == r[..id][i] == cells[..id][i];
      } else if cells[id].cellType == Code {
        assert r[i] == cells[i] by {
          assert i > id;
          assert r[i] == r[id + 1..][i - id - 1];
        }
      } else {
        assert r[i + 1] == r[id + 1..][i - id] == cells[id..][i - id];
        assert IsMarked(r[i + 1], statement);
      }
    }
    if HasMarker(r, statement) {
      var i :| 0 <= i < |r| && IsMarked(r[i], statement);
      if i < id {
        assert r[i] == r[..id][i] == cells[..id][i];
      } else if cells[id].cellType == Code {
        assert r[i] == r[id + 1..][i - id - 1] == cells[i];
      } else {
        assert r[i] == r[id + 1..][i - id - 1] == cells[id..][i - id - 1] == cells[i - 1];
      }
    }
  }

  /** Inserting the directive cell does not change whether the notebook opts out. */
  lemma AutolinkKeepsMarker(cells: seq<Cell>, statement: string)
    requires statement == NO_SET_NB_CELLS || statement == NO_AUTOLINK_CONCAT
    ensures HasMarker(AutolinkOutcome(cells), statement) <==> HasMarker(cells, statement)
  {
    if AutolinkOutcome(cells) != cells {
      AutolinkCellUnmarked(statement);
      InsertKeepsMarker(cells, FirstMarkdown(cells), AUTOLINK_CELL, statement);
    }
  }

  /** Inserting a cell without the opt-out comment does not change whether the notebook opts out. */
  lemma InsertKeepsMarker(cells: seq<Cell>, k: nat, cell: Cell, statement: string)
    requires k <= |cells| && !IsMarked(cell, statement)
    ensures HasMarker(cells[..k] + [cell] + cells[k..], statement) <==> HasMarker(cells, statement)
  {
    var r := cells[..k] + [cell] + cells[k..];
    assert forall j :: 0 <= j < k ==> r[j] == cells[j];
    assert forall j :: k < j < |r| ==> r[j] == cells[j - 1];
    if HasMarker(cells, statement) {
      var i :| 0 <= i < |cells| && IsMarked(cells[i], statement);
      if i >= k {
        assert IsMarked(r[i + 1], statement);
      } else {
        assert IsMarked(r[i], statement);
      }
    }
    if HasMarker(r, statement) {
      var i :| 0 <= i < |r| && IsMarked(r[i], statement);
      if i > k {
        assert IsMarked(cells[i - 1], statement);
      } else {
        assert IsMarked(cells[i], statement);
      }
    }
  }

  /** The directive goes before the first Markdown cell, so a leading run of code cells stays in place. */
  lemma AutolinkKeepsCodePrefix(cells: seq<Cell>, k: nat)
    requires k <= |cells| && forall j :: 0 <= j < k ==> cells[j].cellType == Code
    ensures |AutolinkOutcome(cells)| >= k && AutolinkOutcome(cells)[..k] == cells[..k]
  {
  }

  /** Running `_insert_autolink_concat` a second time changes nothing. */
  lemma AutolinkOutcomeIdempotent(cells: seq<Cell>)
    ensures AutolinkOutcome(AutolinkOutcome(cells)) == AutolinkOutcome(cells)
  {
    AutolinkKeepsMarker(cells, NO_AUTOLINK_CONCAT);
    WithAutolinkIdempotent(cells);
  }

  /** The command-line options of the script that shape the cells. */
  datatype Options = Options(addInstallCell: bool, extrasRequire: string, additionalPackages: string, noConfigCell: bool)

  /** The position of the configuration cell: after the install cell when there is one. */
  function ConfigCellId(options: Options): (id: nat)
    ensures id == 1 <==> options.addInstallCell
    ensures id == 0 <==> !options.addInstallCell
  {
    if options.addInstallCell then 1 else 0
  }

  /** The install cell of `options`, when asked for. */
  function InstallCell(options: Options, name: string): Option<Cell>
  {
    if options.addInstallCell then
      Some(CodeCell(InstallCellContent(name, options.extrasRequire, options.additionalPackages), INSTALL_CELL_METADATA))
    else None
  }

  /** The configuration cell of `options`, unless switched off. */
  function ConfigCell(options: Options): Option<Cell> {
    if options.noConfigCell then None
    else Some(CodeCell(ConfigCellContent(options.additionalPackages), CONFIG_CELL_METADATA))
  }

  /**
   * One notebook as `main` handles it, given the cells it writes: the install cell at the top, the
   * configuration cell after it, then the directive. The first exception stops the script with what
   * was written so far.
   */
  function ProcessedWith(cells: seq<Cell>, install: Option<Cell>, config: Option<Cell>): Outcome {
    var first :=
      if install.Some? then UpdateOutcome(cells, install.value.source, install.value.metadata, 0)
      else Outcome(cells, None);
    if first.error.Some? then first
    else
      var second :=
        if config.Some? then UpdateOutcome(first.cells, config.value.source, config.value.metadata, if install.Some? then 1 else 0)
        else first;
      if second.error.Some? then second
      else Outcome(AutolinkOutcome(second.cells), None)
  }

  function Processed(cells: seq<Cell>, options: Options, name: string): Outcome
  {
    ProcessedWith(cells, InstallCell(options, name), ConfigCell(options))
  }

  /** A code cell, as `_update_cell` writes it. */
  predicate IsCode(cell: Option<Cell>) {
    cell.None? || cell.value == CodeCell(cell.value.source, cell.value.metadata)
  }

  /**
   * A notebook that does not opt out and is handled without an exception starts with the install
   * cell (when asked for), followed by the configuration cell (unless switched off).
   */
  lemma ProcessedWithLayout(cells: seq<Cell>, install: Option<Cell>, config: Option<Cell>)
    requires IsCode(install) && IsCode(config)
    requires !HasMarker(cells, NO_SET_NB_CELLS) && ProcessedWith(cells, install, config).error.None?
    ensures var r := ProcessedWith(cells, install, config).cells;
            var configId := if install.Some? then 1 else 0;
            && (install.Some? ==> |r| > 0 && r[0] == install.value)
            && (config.Some? ==> |r| > configId && r[configId] == config.value)
  {
    var first := if install.Some? then UpdateOutcome(cells, install.value.source, install.value.metadata, 0) else Outcome(cells, None);
    if install.Some? {
      UpdatedKeepsMarker(cells, install.value, 0, NO_SET_NB_CELLS);
    }
    var configId := if install.Some? then 1 else 0;
    var second := if config.Some? then UpdateOutcome(first.cells, config.value.source, config.value.metadata, configId) else first;
    var k := configId + (if config.Some? then 1 else 0);
    assert |second.cells| >= k;
    assert forall j :: 0 <= j < k ==> second.cells[j].cellType == Code;
    AutolinkKeepsCodePrefix(second.cells, k);
    var r := AutolinkOutcome(second.cells);
    assert forall j :: 0 <= j < k ==> r[j] == r[..k][j] == second.cells[j];
  }

  lemma ProcessedLayout(cells: seq<Cell>, options: Options, name: string)
    requires !HasMarker(cells, NO_SET_NB_CELLS) && Processed(cells, options, name).error.None?
    ensures var r := Processed(cells, options, name).cells;
            && (options.addInstallCell ==> |r| > 0 && r[0] == InstallCell(options, name).value)
            && (!options.noConfigCell ==> |r| > ConfigCellId(options) && r[ConfigCellId(options)] == ConfigCell(options).value)
  {
    ProcessedWithLayout(cells, InstallCell(options, name), ConfigCell(options));
  }

  /** Writing a code cell where that very cell already is changes nothing. */
  lemma UpdateSameCell(cells: seq<Cell>, cell: Cell, id: nat)
    requires id < |cells| && cells[id] == cell && cell == CodeCell(cell.source, cell.metadata)
    ensures UpdateOutcome(cells, cell.source, cell.metadata, id) == Outcome(cells, None)
  {
    assert cells[id := cell] == cells;
  }

  /** Handling a notebook a second time changes nothing. */
  lemma ProcessedWithIdempotent(cells: seq<Cell>, install: Option<Cell>, config: Option<Cell>)
    requires IsCode(install) && IsCode(config)
    requires ProcessedWith(cells, install, config).error.None?
    ensures var once := ProcessedWith(cells, install, config);
            ProcessedWith(once.cells, install, config) == once
  {
    var once := ProcessedWith(cells, install, config).cells;
    if HasMarker(cells, NO_SET_NB_CELLS) {
      assert once == AutolinkOutcome(cells);
      AutolinkKeepsMarker(cells, NO_SET_NB_CELLS);
      AutolinkOutcomeIdempotent(cells);
    } else {
      ProcessedWithLayout(cells, install, config);
      var first := if install.Some? then UpdateOutcome(cells, install.value.source, install.value.metadata, 0) else Outcome(cells, None);
      var configId := if install.Some? then 1 else 0;
      var second := if config.Some? then UpdateOutcome(first.cells, config.value.source, config.value.metadata, configId) else first;
      assert once == AutolinkOutcome(second.cells);
      AutolinkOutcomeIdempotent(second.cells);
      if install.Some? {
        UpdateSameCell(once, install.value, 0);
      }
      if config.Some? {
        UpdateSameCell(once, config.value, configId);
      }
    }
  }

  lemma ProcessedIdempotent(cells: seq<Cell>, options: Options, name: string)
    requires Processed(cells, options, name).error.None?
    ensures Processed(Processed(cells, options, name).cells, options, name) == Processed(cells, options, name)
  {
    ProcessedWithIdempotent(cells, InstallCell(options, name), ConfigCell(options));
  }

  /** A notebook file as `main` edits it: its cells, rewritten in place. */
  class NotebookFile {
    var cells: seq<Cell>

    constructor (cells: seq<Cell>)
      ensures this.cells == cells
    {
      this.cells := cells;
    }

    /** `_skip_notebook`: looks for `statement` in the lowercased source of the Markdown cells only. */
    method Skip(statement: string) returns (skip: bool)
      ensures skip == HasMarker(cells, statement)
    {
      var i := 0;
      while i < |cells|
        invariant 0 <= i <= |cells|
        invariant forall j :: 0 <= j < i ==> !IsMarked(cells[j], statement)
      {
        var cell := cells[i];
        if cell.cellType != Markdown {
          i := i + 1;
          continue;
        }
        if Contains(Lower(cell.source), statement) {
          return true;
        }
        i := i + 1;
      }
      return false;
    }

    /** `_update_cell`. */
    method UpdateCell(content: string, metadata: map<string, Meta>, id: nat) returns (error: Option<string>)
      modifies this
      ensures Outcome(cells, error) == UpdateOutcome(old(cells), content, metadata, id)
    {
      var skip := Skip(NO_SET_NB_CELLS);
      if skip {
        return None;
      }
      if id >= |cells| {
        return Some(INDEX_ERROR);
      }
      var newCell := CodeCell(content, metadata);
      if cells[id].cellType == Code {
        cells := cells[id := newCell];
      } else {
        cells := cells[..id] + [newCell] + cells[id..];
      }
      error := None;
    }

    /** `_insert_autolink_concat`: walks the cells up to the first Markdown cell. */
    method InsertAutolinkConcat()
      modifies this
      ensures cells == AutolinkOutcome(old(cells))
    {
      var skip := Skip(NO_AUTOLINK_CONCAT);
      if skip {
        return;
      }
      var i := 0;
      while i < |cells|
        invariant 0 <= i <= |cells| && cells == old(cells)
        invariant forall j :: 0 <= j < i ==> cells[j].cellType != Markdown
      {
        if cells[i].cellType != Markdown {
          i := i + 1;
          continue;
        }
        FirstMarkdownAt(cells, i);
        if cells[i].source == AUTOLINK_CONCAT {
          return;
        }
        cells := cells[..i] + [AUTOLINK_CELL] + cells[i..];
        return;
      }
    }

    /** The body of `main`'s loop for this notebook: the cells of `options`, written in place. */
    method Process(options: Options, name: string) returns (error: Option<string>)
      modifies this
      ensures Outcome(cells, error) == Processed(old(cells), options, name)
    {
      var install := None;
      if options.addInstallCell {
        var content := InstallCellContent(name, options.extrasRequire, options.additionalPackages);
        install := Some(CodeCell(content, INSTALL_CELL_METADATA));
      }
      var config := if options.noConfigCell then None else Some(CodeCell(ConfigCellContent(options.additionalPackages), CONFIG_CELL_METADATA));
      error := ProcessWith(install, config);
    }

    /** Writes the install cell, then the configuration cell, with the `cell_id` counter, then the directive. */
    method ProcessWith(install: Option<Cell>, config: Option<Cell>) returns (error: Option<string>)
      modifies this
      ensures Outcome(cells, error) == ProcessedWith(old(cells), install, config)
    {
      var cellId := 0;
      if install.Some? {
        error := UpdateCell(install.value.source, install.value.metadata, cellId);
        if error.Some? {
          return;
        }
        cellId := cellId + 1;
      }
      if config.Some? {
        error := UpdateCell(config.value.source, config.value.metadata, cellId);
        if error.Some? {
          return;
        }
      }
      InsertAutolinkConcat();
      error := None;
    }
  }

  /** The notebooks on disk after `main`, and the exception that stopped it. */
  datatype FilesOutcome = FilesOutcome(notebooks: map<string, seq<Cell>>, error: Option<string>)

  /** How `main` handles one notebook under `options`. */
  function Handler(options: Options, name: string): seq<Cell> -> Outcome {
    cells => Processed(cells, options, name)
  }

  /** The notebooks named so far handled in order by `handle`, stopping at the first exception. */
  function ProcessedFiles(files: map<string, seq<Cell>>, filenames: seq<string>, handle: seq<Cell> -> Outcome): FilesOutcome {
    if |filenames| == 0 then FilesOutcome(files, None)
    else
      var before := ProcessedFiles(files, filenames[..|filenames| - 1], handle);
      if before.error.Some? then before else StepFile(before.notebooks, filenames[|filenames| - 1], handle)
  }

  /** One iteration of `main`'s loop: the named notebook must exist, and is handled and written back. */
  function StepFile(notebooks: map<string, seq<Cell>>, f: string, handle: seq<Cell> -> Outcome): (r: FilesOutcome)
    ensures r.notebooks.Keys == notebooks.Keys
    ensures forall g :: g in notebooks && g != f ==> r.notebooks[g] == notebooks[g]
  {
    if f !in notebooks then FilesOutcome(notebooks, Some("FileNotFoundError: " + f))
    else
      var outcome := handle(notebooks[f]);
      FilesOutcome(notebooks[f := outcome.cells], outcome.error)
  }

  /** Once an exception stopped the script, later names change nothing. */
  lemma {:induction false} ProcessedFilesStopped(files: map<string, seq<Cell>>, filenames: seq<string>, n: nat,
                                                 handle: seq<Cell> -> Outcome)
    requires n <= |filenames|
    requires ProcessedFiles(files, filenames[..n], handle).error.Some?
    ensures ProcessedFiles(files, filenames, handle) == ProcessedFiles(files, filenames[..n], handle)
  {
    if n < |filenames| {
      var init := filenames[..|filenames| - 1];
      assert init[..n] == filenames[..n];
      ProcessedFilesStopped(files, init, n, handle);
    } else {
      assert filenames[..n] == filenames;
    }
  }

  /** Only the named notebooks are rewritten. */
  lemma {:induction false} ProcessedFilesUnnamed(files: map<string, seq<Cell>>, filenames: seq<string>,
                                                 handle: seq<Cell> -> Outcome, f: string)
    requires f !in filenames
    ensures var after := ProcessedFiles(files, filenames, handle).notebooks;
            after.Keys == files.Keys && (f in files ==> after[f] == files[f])
  {
    if |filenames| > 0 {
      var init := filenames[..|filenames| - 1];
      assert forall g :: g in init ==> g in filenames;
      ProcessedFilesUnnamed(files, init, handle, f);
    }
  }

  /**
   * `main`: every named notebook is handled in turn; a missing file or an exception stops the
   * script. `files` are the notebooks on disk and `name` is the package name from `setup.cfg`.
   */
  method SetNbCells(files: map<string, seq<Cell>>, filenames: seq<string>, options: Options, name: string)
    returns (after: map<string, seq<Cell>>, error: Option<string>)
    ensures FilesOutcome(after, error) == ProcessedFiles(files, filenames, Handler(options, name))
  {
    ghost var handle := Handler(options, name);
    after := files;
    error := None;
    var i := 0;
    while i < |filenames|
      invariant 0 <= i <= |filenames|
      invariant FilesOutcome(after, None) == ProcessedFiles(files, filenames[..i], handle) && error.None?
    {
      assert filenames[..i + 1][..i] == filenames[..i];
      var step := HandleFile(after, filenames[i], options, name);
      after, error := step.notebooks, step.error;
      if error.Some? {
        ProcessedFilesStopped(files, filenames, i + 1, handle);
        return;
      }
      i := i + 1;
    }
    assert filenames[..i] == filenames;
  }

  /** The body of `main`'s loop: reads the notebook, handles it and writes it back. */
  method HandleFile(notebooks: map<string, seq<Cell>>, f: string, options: Options, name: string) returns (r: FilesOutcome)
    ensures r == StepFile(notebooks, f, Handler(options, name))
  {
    if f !in notebooks {
      return FilesOutcome(notebooks, Some("FileNotFoundError: " + f));
    }
    var notebook := new NotebookFile(notebooks[f]);
    var error := notebook.Process(options, name);
    r := FilesOutcome(notebooks[f := notebook.cells], error);
  }
}
