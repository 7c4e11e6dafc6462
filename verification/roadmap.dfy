/**
 The hard-coded curriculum table (constants.tsx) and the structural facts
 about it that the dashboard silently relies on: distinct phase ids, distinct
 milestone ids, non-empty milestone lists, nine milestones in all and
 distinct topic names within a phase.
 */
module Roadmap {
  import opened Wrappers
  import opened Types

  /** The table `ROADMAP_DATA`: one entry per month. */
  const RoadmapData: seq<Phase> := [Foundation, BlueTeam, RedTeam]

  /** Month 1. */
  const Foundation: Phase := Phase(
      1, 1,
      "The Foundation",
      "Networking & OS Security",
      "Before defending a system, you must understand how it talks and how it breathes. This month focuses on the core plumbing of IT.",
      [
        TopicResource("OSI Model",
          ["Cloudflare: What is the OSI Model?", "Professor Messer's Network+ Videos"],
          Some("Open Systems Interconnection model: A conceptual framework used to understand network interactions in seven layers.")),
        TopicResource("TCP/IP Suite",
          ["RFC 793 (TCP Spec)", "Wireshark University: TCP Deep Dive"],
          Some("The conceptual model and set of communications protocols used in the Internet and similar computer networks.")),
        TopicResource("Linux Command Line",
          ["OverTheWire: Bandit Wargame", "Linux Journey (Free Course)"],
          Some("The primary interface for managing servers, automating tasks, and performing security audits.")),
        TopicResource("Windows Internals",
          ["Microsoft Learn: Windows Architecture", "Sysinternals Documentation"],
          Some("Understanding processes, threads, memory management, and security descriptors within Windows.")),
        TopicResource("Basic Scripting",
          ["Automate the Boring Stuff with Python", "Bash Academy"],
          Some("Automation is key. Python and Bash allow for rapid tool development and log parsing."))
      ],
      [
        Milestone("m1-1",
          "Complete Cisco Networking Basics",
          "Master IP addressing, subnetting, and protocols.",
          false,
          Some([
            "IP Addressing: Understand IPv4 (32-bit) vs IPv6 (128-bit). Learn the difference between Public and Private (RFC 1918) addresses.",
            "Subnetting: Master the 'Magic Number' method. Convert CIDR (e.g., /24) to Subnet Masks (255.255.255.0).",
            "Protocols: Study HTTP (80), HTTPS (443), SSH (22), DNS (53), and DHCP (67/68). Learn how the 3-Way Handshake (SYN -> SYN/ACK -> ACK) works."
          ])),
        Milestone("m1-2",
          "Linux Power User & Hardening",
          "Learn CLI and implement 'Hard Mode' security procedures.",
          false,
          Some([
            "Root Restriction: Disable direct root login in /etc/ssh/sshd_config. Use 'sudo' for everything.",
            "Password Policy: Implement libpam-cracklib and set minimum length (14+) and complexity in /etc/pam.d/common-password.",
            "Filesystem Hardening: Mount /tmp and /var/tmp with 'noexec', 'nosuid', and 'nodev' options in /etc/fstab.",
            "Kernel Hardening: Configure /etc/sysctl.conf to ignore ICMP redirects and enable ASLR (Address Space Layout Randomization)."
          ])),
        Milestone("m1-3",
          "Virtualization Setup (Proxmox)",
          "Deploy a high-performance home lab using Proxmox VE.",
          false,
          Some([
            "Hardware Check: Ensure VT-x or AMD-V is enabled in your BIOS.",
            "Installation: Burn Proxmox ISO to USB using Rufus or BalenaEtcher. Boot and follow the Debian-based installer.",
            "Network Config: Create a Linux Bridge (vmbr0) for management and a separate bridge (vmbr1) for your 'Dark Net' lab subnet.",
            "Storage: Setup ZFS for data integrity or LVM-Thin for snapshots. Snapshot your VMs before running any malware!"
          ]))
      ],
      [
        Lab("Packet Hunting",
          ["Wireshark", "tcpdump"],
          "Analyze a PCAP file to identify an unencrypted login session.",
          Easy,
          Some("Hands-on traffic analysis to find plaintext credentials in transit.")),
        Lab("Hardening Linux",
          ["SSH", "UFW", "Systemd"],
          "Secure a fresh Ubuntu install by disabling services and configuring firewall rules.",
          Medium,
          Some("System administration task focusing on reducing the attack surface of a server."))
      ],
      Project("The Ultimate Home Lab",
        "Build a multi-OS environment consisting of a pfSense firewall, a Kali Linux attacker machine, and a Windows Server target.",
        ["Network Diagram", "Firewall Rule List", "Lab Connectivity Test Report"]),
      "\U{1F310}")

  /** Month 2. */
  const BlueTeam: Phase := Phase(
      2, 2,
      "Defense & Operations",
      "SOC, SIEM & Incident Response",
      "Shifting from setup to monitoring. Learn to spot the 'smoke' before the 'fire' through logging and analysis.",
      [
        TopicResource("SIEM",
          ["Elastic Security Guide", "Wazuh Documentation"],
          Some("Security Information and Event Management: Tools providing real-time analysis of security alerts.")),
        TopicResource("Log Analysis",
          ["SANS Institute: Log Management Gold Standard", "Splunk Fundamentals"],
          Some("Reviewing computer-generated event logs to identify patterns and potential security threats.")),
        TopicResource("EDR",
          ["CrowdStrike: What is EDR?", "Open Source EDR: Velociraptor"],
          Some("Endpoint Detection and Response: Technology that monitors end-user devices for cyber threats."))
      ],
      [
        Milestone("m2-1", "Deploy a SIEM", "Install Wazuh or the ELK stack in your home lab.", false, None),
        Milestone("m2-2", "Log Ingestion", "Feed Windows Event Logs and Syslog into your SIEM.", false, None),
        Milestone("m2-3", "Crypto Challenge", "Solve 5 basic CTF-style cryptography problems.", false, None)
      ],
      [
        Lab("The Brute Force Detector",
          ["Wazuh", "Hydra"],
          "Perform a brute force attack on your own server and create a SIEM alert to block the IP.",
          Medium,
          Some("Automated threat detection and response using modern SIEM correlation rules.")),
        Lab("Memory Forensics",
          ["Volatility"],
          "Extract password hashes from a memory dump of a compromised machine.",
          Hard,
          Some("Advanced forensic analysis of volatile memory (RAM) to recover artifacts."))
      ],
      Project("Active Monitoring Dashboard",
        "Create a real-time SOC dashboard using Grafana that visualizes failed SSH logins and unauthorized file changes.",
        ["JSON Dashboard Export", "Detection Logic Explanation", "Incident Report Sample"]),
      "\U{1F6E1}\U{FE0F}")

  /** Month 3. */
  const RedTeam: Phase := Phase(
      3, 3,
      "Offense & Specialization",
      "Penetration Testing & Web Sec",
      "Thinking like an attacker to build better defenses. Exploring vulnerabilities and cloud environments.",
      [
        TopicResource("Vulnerability Assessment",
          ["Nessus Free Guide", "Qualys Community Edition"],
          Some("The process of identifying, quantifying, and prioritizing vulnerabilities in a system.")),
        TopicResource("OWASP Top 10",
          ["OWASP Official Documentation", "PortSwigger Web Security Academy"],
          Some("Standard awareness document for developers and web application security representing the most critical risks.")),
        TopicResource("Cloud Security",
          ["AWS Security Fundamentals", "Microsoft SC-900 Exam Topics"],
          Some("Securing data, applications, and infrastructure in environments like AWS, Azure, and GCP."))
      ],
      [
        Milestone("m3-1", "Web App Hacking Basics", "Understand SQLi, XSS, and IDOR.", false, None),
        Milestone("m3-2", "Cloud IAM Hardening", "Learn the principle of least privilege in AWS/Azure.", false, None),
        Milestone("m3-3", "Policy Writing", "Draft a basic Acceptable Use Policy (AUP).", false, None)
      ],
      [
        Lab("Juice Shop Exploitation",
          ["Burp Suite", "OWASP Juice Shop"],
          "Perform a successful SQL injection to login as 'admin' without a password.",
          Medium,
          Some("Practical web application penetration testing using the industry-standard proxy tool.")),
        Lab("Metasploit Mastery",
          ["Metasploit", "Nmap"],
          "Identify a service vulnerability and execute a reverse shell payload.",
          Hard,
          Some("Learning the exploitation lifecycle from reconnaissance to post-exploitation."))
      ],
      Project("Full Scope Pen Test",
        "Conduct a black-box penetration test on a vulnerable VM (like Metasploitable) and document every finding.",
        ["Professional Pen-Test Report", "Remediation Guide", "Risk Matrix"]),
      "\U{2694}\U{FE0F}")


  /** No two positions of `s` hold the same value. */
  predicate Distinct<T(==)>(s: seq<T>) {
    forall i, j | 0 <= i < j < |s| :: s[i] != s[j]
  }

  function PhaseIds(phases: seq<Phase>): seq<int> {
    seq(|phases|, i requires 0 <= i < |phases| => phases[i].id)
  }

  function MilestoneIds(ms: seq<Milestone>): seq<string> {
    seq(|ms|, i requires 0 <= i < |ms| => ms[i].id)
  }

  function TopicNames(ts: seq<TopicResource>): seq<string> {
    seq(|ts|, i requires 0 <= i < |ts| => ts[i].name)
  }

  /** Every milestone of every phase, in table order. */
  function AllMilestones(phases: seq<Phase>): (ms: seq<Milestone>)
    ensures forall p, m | p in phases && m in p.milestones :: m in ms
    ensures forall m | m in ms :: exists p | p in phases :: m in p.milestones
  {
    if |phases| == 0 then []
    else phases[0].milestones + AllMilestones(phases[1..])
  }

  /** Sum of the phases' milestone counts. */
  function TotalMilestones(phases: seq<Phase>): nat {
    if |phases| == 0 then 0
    else |phases[0].milestones| + TotalMilestones(phases[1..])
  }

  /** The set of milestone ids a table holds. */
  function MilestoneIdSet(phases: seq<Phase>): set<string> {
    set id | id in MilestoneIds(AllMilestones(phases))
  }

  /** The nine milestone ids the header's total is counted against. */
  function ShippedMilestoneIds(): set<string> {
    {"m1-1", "m1-2", "m1-3", "m2-1", "m2-2", "m2-3", "m3-1", "m3-2", "m3-3"}
  }

  /** The structural invariants the progress and lookup code depend on. */
  predicate WellFormed(phases: seq<Phase>) {
    && |phases| > 0
    && Distinct(PhaseIds(phases))
    && (forall p | p in phases :: |p.milestones| > 0)
    && Distinct(MilestoneIds(AllMilestones(phases)))
    && (forall p | p in phases :: Distinct(TopicNames(p.topics)))
    && (forall m | m in AllMilestones(phases) :: !m.completed)
  }

  /** `Array.prototype.find` on phase id: the first phase with that id, if any. */
  function FindPhase(phases: seq<Phase>, id: int): (r: Option<Phase>)
    ensures r.Some? ==> r.value in phases && r.value.id == id
    ensures r.None? <==> (forall p | p in phases :: p.id != id)
    ensures r.Some? ==> exists k | 0 <= k < |phases| ::
              phases[k] == r.value && forall j | 0 <= j < k :: phases[j].id != id
  {
    if |phases| == 0 then None
    else if phases[0].id == id then Some(phases[0])
    else FindPhase(phases[1..], id)
  }

  /** The shipped table has phases 1, 2 and 3, each with three milestones. */
  lemma RoadmapShape()
    ensures PhaseIds(RoadmapData) == [1, 2, 3]
    ensures forall p | p in RoadmapData :: |p.milestones| == 3
    ensures TotalMilestones(RoadmapData) == 9
  {
    TotalOfThree(RoadmapData);
  }

  lemma TotalOfThree(phases: seq<Phase>)
    requires |phases| == 3
    ensures TotalMilestones(phases)
         == |phases[0].milestones| + |phases[1].milestones| + |phases[2].milestones|
  {
    var tail := phases[1..];
    assert TotalMilestones(tail[1..][1..]) == 0;
    assert TotalMilestones(tail[1..]) == |tail[1].milestones|;
  }

  lemma ShippedMilestoneList()
    ensures AllMilestones(RoadmapData)
         == RoadmapData[0].milestones + RoadmapData[1].milestones + RoadmapData[2].milestones
  {
    assert |RoadmapData| == 3;
    AllMilestonesOfThree(RoadmapData);
  }

  lemma AllMilestonesOfThree(phases: seq<Phase>)
    requires |phases| == 3
    ensures AllMilestones(phases) == phases[0].milestones + phases[1].milestones + phases[2].milestones
  {
    var tail := phases[1..];
    assert AllMilestones(tail[1..][1..]) == [];
    assert AllMilestones(tail[1..]) == tail[1].milestones;
    assert AllMilestones(tail) == tail[0].milestones + tail[1].milestones;
  }

  lemma IdsOfConcat(a: seq<Milestone>, b: seq<Milestone>)
    ensures MilestoneIds(a + b) == MilestoneIds(a) + MilestoneIds(b)
  {
  }

  /** Each phase's own milestone ids, in table order. */
  lemma PhaseMilestoneIdLists()
    ensures MilestoneIds(RoadmapData[0].milestones) == ["m1-1", "m1-2", "m1-3"]
    ensures MilestoneIds(RoadmapData[1].milestones) == ["m2-1", "m2-2", "m2-3"]
    ensures MilestoneIds(RoadmapData[2].milestones) == ["m3-1", "m3-2", "m3-3"]
  {
  }

  /** The nine shipped milestone ids, in table order. */
  lemma ShippedMilestoneIdList()
    ensures MilestoneIds(AllMilestones(RoadmapData))
         == ["m1-1", "m1-2", "m1-3", "m2-1", "m2-2", "m2-3", "m3-1", "m3-2", "m3-3"]
  {
    ShippedMilestoneList();
    PhaseMilestoneIdLists();
    var a, b, c := RoadmapData[0].milestones, RoadmapData[1].milestones, RoadmapData[2].milestones;
    IdsOfConcat(a + b, c);
    IdsOfConcat(a, b);
    JoinThrees(MilestoneIds(a), MilestoneIds(b), MilestoneIds(c));
  }

  lemma JoinThrees<T>(a: seq<T>, b: seq<T>, c: seq<T>)
    requires |a| == 3 && |b| == 3 && |c| == 3
    ensures a + b + c == [a[0], a[1], a[2], b[0], b[1], b[2], c[0], c[1], c[2]]
  {
  }

  lemma NineIdsDistinct()
    ensures Distinct(["m1-1", "m1-2", "m1-3", "m2-1", "m2-2", "m2-3", "m3-1", "m3-2", "m3-3"])
  {
  }

  lemma ShippedMilestoneIdsDistinct()
    ensures Distinct(MilestoneIds(AllMilestones(RoadmapData)))
  {
    ShippedMilestoneIdList();
    NineIdsDistinct();
  }

  lemma ShippedTopicNamesDistinct()
    ensures forall p | p in RoadmapData :: Distinct(TopicNames(p.topics))
  {
  }

  lemma PhasesNotCompleted()
    ensures forall k, i | 0 <= k < |RoadmapData| && 0 <= i < |RoadmapData[k].milestones| ::
              !RoadmapData[k].milestones[i].completed
  {
  }

  lemma ShippedMilestonesNotCompleted()
    ensures forall m | m in AllMilestones(RoadmapData) :: !m.completed
  {
    PhasesNotCompleted();
    NoneCompleted(RoadmapData);
  }

  lemma NoneCompleted(phases: seq<Phase>)
    requires forall k, i | 0 <= k < |phases| && 0 <= i < |phases[k].milestones| ::
               !phases[k].milestones[i].completed
    ensures forall m | m in AllMilestones(phases) :: !m.completed
  {
    forall m | m in AllMilestones(phases) ensures !m.completed {
      var p :| p in phases && m in p.milestones;
      var k :| 0 <= k < |phases| && phases[k] == p;
      var i :| 0 <= i < |p.milestones| && p.milestones[i] == m;
    }
  }

  /** The shipped table satisfies every structural invariant. */
  lemma RoadmapWellFormed()
    ensures WellFormed(RoadmapData)
  {
    RoadmapShape();
    PhaseIdsDistinct();
    ShippedMilestoneIdsDistinct();
    ShippedTopicNamesDistinct();
    ShippedMilestonesNotCompleted();
    WellFormedIntro(RoadmapData);
  }

  lemma PhaseIdsDistinct()
    ensures Distinct(PhaseIds(RoadmapData))
  {
    RoadmapShape();
    IncreasingDistinct(PhaseIds(RoadmapData));
  }

  /** A strictly increasing id list has no duplicates. */
  lemma IncreasingDistinct(s: seq<int>)
    requires forall i | 0 < i < |s| :: s[i - 1] < s[i]
    ensures Distinct(s)
  {
    forall i, j | 0 <= i < j < |s| ensures s[i] != s[j] {
      IncreasingBetween(s, i, j);
    }
  }

  lemma {:induction false} IncreasingBetween(s: seq<int>, i: nat, j: nat)
    requires forall k | 0 < k < |s| :: s[k - 1] < s[k]
    requires i < j < |s|
    ensures s[i] < s[j]
    decreases j - i
  {
    if i + 1 < j {
      IncreasingBetween(s, i, j - 1);
    }
  }

  lemma WellFormedIntro(phases: seq<Phase>)
    requires |phases| > 0
    requires Distinct(PhaseIds(phases))
    requires forall p | p in phases :: |p.milestones| == 3
    requires Distinct(MilestoneIds(AllMilestones(phases)))
    requires forall p | p in phases :: Distinct(TopicNames(p.topics))
    requires forall m | m in AllMilestones(phases) :: !m.completed
    ensures WellFormed(phases)
  {
  }

  /** A duplicate-free sequence has as many distinct elements as positions. */
  lemma {:induction false} DistinctCardinality<T>(s: seq<T>)
    requires Distinct(s)
    ensures |set x | x in s| == |s|
  {
    if |s| > 0 {
      var rest := s[1..];
      assert Distinct(rest) by {
        forall i, j | 0 <= i < j < |rest| ensures rest[i] != rest[j] {
          assert s[i + 1] != s[j + 1];
        }
      }
      DistinctCardinality(rest);
      assert s[0] !in rest by {
        forall k | 0 <= k < |rest| ensures rest[k] != s[0] {
          assert s[k + 1] != s[0];
        }
      }
      assert s == [s[0]] + rest;
      assert (set x | x in s) == {s[0]} + (set x | x in rest);
    }
  }

  /** The header's id set is exactly the set of ids the table holds. */
  lemma ShippedMilestoneIdsFromTable()
    ensures MilestoneIdSet(RoadmapData) == ShippedMilestoneIds()
  {
    ShippedMilestoneIdList();
  }

  /** The table ships exactly nine distinct milestone ids. */
  lemma ShippedMilestoneIdCount()
    ensures |ShippedMilestoneIds()| == 9
    ensures |MilestoneIdSet(RoadmapData)| == 9
  {
    var ids := ["m1-1", "m1-2", "m1-3", "m2-1", "m2-2", "m2-3", "m3-1", "m3-2", "m3-3"];
    NineIdsDistinct();
    DistinctCardinality(ids);
    assert (set x | x in ids) == ShippedMilestoneIds();
    ShippedMilestoneIdsFromTable();
  }
}
